/** Values as the configurator exchanges them: the settings a user edits, the
    messages sent to the background page and to the native host, and the
    exported document. JSON and JavaScript share this shape; every number the
    configurator stores is an integer. A JavaScript object is an ordered list
    of (key, value) entries with distinct keys, in property insertion order. */
module JsValues {
  import opened Wrappers
  import Decimal

  datatype Json =
    | JNull
    | JBool(b: bool)
    | JNum(n: int)
    | JStr(s: string)
    | JArr(items: seq<Json>)
    | JObj(fields: Fields)

  type Fields = seq<(string, Json)>

  function Keys(r: Fields): (ks: seq<string>)
    ensures |ks| == |r|
    ensures forall i :: 0 <= i < |r| ==> ks[i] == r[i].0
  {
    if r == [] then [] else [r[0].0] + Keys(r[1..])
  }

  /** A JavaScript object or Python dict: no key twice. */
  ghost predicate UniqueKeys(r: Fields) {
    r == [] || (r[0].0 !in Keys(r[1..]) && UniqueKeys(r[1..]))
  }

  /** Every object inside `v` has distinct keys, as every value `json.loads`
      or `JSON.parse` returns does. */
  ghost predicate WellFormed(v: Json)
    decreases v
  {
    match v
    case JArr(items) => forall i :: 0 <= i < |items| ==> WellFormed(items[i])
    case JObj(fields) =>
      && UniqueKeys(fields)
      && forall i :: 0 <= i < |fields| ==> WellFormed(fields[i].1)
    case _ => true
  }

  /** The value stored under `k`. When a parsed JSON text repeats a key, JSON.parse
      and Python's json.loads both keep the last value, and so does Lookup. */
  function Lookup(r: Fields, k: string): (v: Option<Json>)
    ensures v.Some? <==> k in Keys(r)
  {
    if r == [] then None
    else
      var later := Lookup(r[1..], k);
      if later.Some? then later
      else if r[0].0 == k then Some(r[0].1)
      else None
  }

  /** The distinct-keys property, position by position. */
  lemma {:induction false} UniqueKeysAt(r: Fields)
    ensures UniqueKeys(r) <==> forall i, j :: 0 <= i < j < |r| ==> r[i].0 != r[j].0
  {
    if r != [] {
      UniqueKeysAt(r[1..]);
      assert forall j :: 0 < j < |r| ==> r[j].0 == Keys(r[1..])[j - 1];
    }
  }

  /** `obj[k]` of an arbitrary value: only objects have members. */
  function Member(v: Json, k: string): Option<Json> {
    if v.JObj? then Lookup(v.fields, k) else None
  }

  /** In an object every entry is what a lookup of its key finds. */
  lemma {:induction false} LookupUnique(r: Fields, i: nat)
    requires UniqueKeys(r) && i < |r|
    ensures Lookup(r, r[i].0) == Some(r[i].1)
  {
    if i > 0 {
      LookupUnique(r[1..], i - 1);
    }
  }

  /** `obj[k] = v` on an object: an existing key keeps its position and takes
      the new value, a new key is appended. */
  function Put(r: Fields, k: string, v: Json): (r': Fields)
    requires UniqueKeys(r)
    ensures UniqueKeys(r')
    ensures k !in Keys(r) ==> r' == r + [(k, v)]
    ensures k in Keys(r) ==> Keys(r') == Keys(r)
    decreases |r|
  {
    if r == [] then [(k, v)]
    else if r[0].0 == k then [(k, v)] + r[1..]
    else
      var tail := Put(r[1..], k, v);
      assert ([r[0]] + tail)[1..] == tail;
      assert k !in Keys(r) ==> [r[0]] + tail == r + [(k, v)] by {
        if k !in Keys(r) {
          assert r == [r[0]] + r[1..];
        }
      }
      [r[0]] + tail
  }

  /** Setting `obj[k] = v` makes `k` hold `v` and leaves every other key as it was. */
  lemma {:induction false} PutLookup(r: Fields, k: string, v: Json, k': string)
    requires UniqueKeys(r)
    ensures Lookup(Put(r, k, v), k') == if k' == k then Some(v) else Lookup(r, k')
    decreases |r|
  {
    if r != [] && r[0].0 != k {
      var tail := Put(r[1..], k, v);
      assert ([r[0]] + tail)[1..] == tail;
      PutLookup(r[1..], k, v, k');
    } else if r != [] {
      assert ([(k, v)] + r[1..])[1..] == r[1..];
    }
  }

  /** `Object.assign(target, src)`: every entry of `src`, in order, is Put into
      `target`. */
  function Assign(target: Fields, src: Fields): (r: Fields)
    requires UniqueKeys(target)
    ensures UniqueKeys(r)
    decreases |src|
  {
    if src == [] then target
    else Assign(Put(target, src[0].0, src[0].1), src[1..])
  }

  /** After `Object.assign`, a key holds its value in `src` when `src` has it
      (the last one when `src` repeats it) and its value in `target` otherwise. */
  lemma {:induction false} AssignLookup(target: Fields, src: Fields, k: string)
    requires UniqueKeys(target)
    ensures Lookup(Assign(target, src), k) == if Lookup(src, k).Some? then Lookup(src, k) else Lookup(target, k)
    decreases |src|
  {
    if src != [] {
      AssignLookup(Put(target, src[0].0, src[0].1), src[1..], k);
      PutLookup(target, src[0].0, src[0].1, k);
    }
  }

  /** `Object.assign` keeps the keys of `target` in their order and appends the
      new keys of `src`; no other key appears. */
  lemma {:induction false} AssignKeys(target: Fields, src: Fields)
    requires UniqueKeys(target)
    ensures Keys(target) <= Keys(Assign(target, src))
    ensures forall k :: k in Keys(Assign(target, src)) <==> k in Keys(target) || k in Keys(src)
    decreases |src|
  {
    if src != [] {
      var t := Put(target, src[0].0, src[0].1);
      AssignKeys(t, src[1..]);
      assert Keys(src) == [src[0].0] + Keys(src[1..]);
      assert Keys(target) <= Keys(t);
      forall k ensures k in Keys(t) <==> k in Keys(target) || k == src[0].0 {
        PutLookup(target, src[0].0, src[0].1, k);
      }
    }
  }

  /** A key-value list read as a JavaScript object: duplicates collapse to one
      entry at the first position, holding the last value. */
  function ToObject(src: Fields): (r: Fields)
    ensures UniqueKeys(r)
    ensures forall k :: Lookup(r, k) == Lookup(src, k)
  {
    forall k ensures Lookup(Assign([], src), k) == Lookup(src, k) {
      AssignLookup([], src, k);
    }
    Assign([], src)
  }

  /** An object is its own copy: spreading or assigning it into an empty
      object changes nothing. */
  lemma {:induction false} ToObjectOfObject(r: Fields)
    requires UniqueKeys(r)
    ensures ToObject(r) == r
  {
    AssignRest(r, 0);
    assert r[..0] == [] && r[0..] == r;
  }

  lemma {:induction false} AssignRest(r: Fields, i: nat)
    requires UniqueKeys(r) && i <= |r|
    ensures UniqueKeys(r[..i]) && Assign(r[..i], r[i..]) == r
    decreases |r| - i
  {
    UniqueKeysAt(r);
    UniqueKeysAt(r[..i]);
    if i == |r| {
      assert r[..i] == r;
    } else {
      assert r[i].0 !in Keys(r[..i]);
      assert r[..i] + [r[i]] == r[..i + 1];
      assert r[i..][1..] == r[i + 1..];
      AssignRest(r, i + 1);
    }
  }

  /** `Object.entries(v)` as the JavaScript engine computes it for a value
      parsed from JSON: `None` when it throws (null or undefined). An object
      gives its own pairs, arrays and strings one entry per index, numbers and
      booleans none. */
  function Entries(v: Option<Json>): (r: Option<Fields>)
    ensures r.Some? ==> UniqueKeys(r.value)
    ensures r.None? <==> v == None || v == Some(JNull)
    ensures v.Some? && v.value.JObj? ==> forall k :: Lookup(r.value, k) == Lookup(v.value.fields, k)
    ensures v.Some? && v.value.JObj? && UniqueKeys(v.value.fields) ==> r == Some(v.value.fields)
    ensures v.Some? && v.value.JArr? ==> r == Some(Indexed(v.value.items))
    ensures v.Some? && v.value.JStr? ==> |r.value| == |v.value.s|
    ensures v.Some? && v.value.JStr? ==>
      forall i :: 0 <= i < |v.value.s| ==> r.value[i] == (Decimal.NatToString(i), JStr([v.value.s[i]]))
    ensures v.Some? && (v.value.JNum? || v.value.JBool?) ==> r == Some([])
  {
    match v
    case None => None
    case Some(JNull) => None
    case Some(JObj(fields)) => ObjectEntries(fields); Some(ToObject(fields))
    case Some(JArr(items)) => Some(Indexed(items))
    case Some(JStr(s)) => Some(Indexed(seq(|s|, i requires 0 <= i < |s| => JStr([s[i]]))))
    case Some(_) => Some([])
  }

  lemma ObjectEntries(fields: Fields)
    ensures UniqueKeys(fields) ==> ToObject(fields) == fields
  {
    if UniqueKeys(fields) {
      ToObjectOfObject(fields);
    }
  }

  /** Entries "0", "1", ... of an array-like value. */
  function Indexed(items: seq<Json>): (r: Fields)
    ensures |r| == |items|
    ensures forall i :: 0 <= i < |r| ==> r[i] == (Decimal.NatToString(i), items[i])
    ensures UniqueKeys(r)
  {
    var r := seq(|items|, i requires 0 <= i < |items| => (Decimal.NatToString(i), items[i]));
    assert UniqueKeys(r) by {
      forall i, j | 0 <= i < j < |r| ensures r[i].0 != r[j].0 {
        Decimal.DigitsOfNat(i);
        Decimal.DigitsOfNat(j);
      }
      UniqueKeysAt(r);
    }
    r
  }
}
