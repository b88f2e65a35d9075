/** A JSON value as Python's `json` module hands it to the analyser: `None`,
    `bool`, `int`, `float`, `str`, `list` and `dict`. A dict is kept as the
    list of its entries in insertion order, because the analyser iterates
    dicts and appends to them; the operations below are the dict operations
    the analyser uses (`get`, `in`, `pop`, item assignment). */
module Json {
  import opened Wrappers

  datatype Json =
    | JNull
    | JBool(b: bool)
    | JInt(i: int)
    | JFloat(f: real)
    | JStr(s: string)
    | JArray(items: seq<Json>)
    | JObject(members: seq<(string, Json)>)

  /** The entries of a dict, in insertion order. */
  type Members = seq<(string, Json)>

  /** Python's truth value `bool(x)`: `None`, `False`, zero, and the empty
      string, list and dict are false; every other value is true. */
  predicate Truthy(j: Json): (b: bool)
    ensures !b <==> j in {JNull, JBool(false), JInt(0), JFloat(0.0), JStr(""), JArray([]), JObject([])}
  {
    match j
    case JNull => false
    case JBool(b) => b
    case JInt(i) => i != 0
    case JFloat(f) => f != 0.0
    case JStr(s) => s != []
    case JArray(items) => items != []
    case JObject(ms) => ms != []
  }

  /** A dict never holds the same key twice. */
  predicate UniqueKeys(ms: Members) {
    forall i, j :: 0 <= i < j < |ms| ==> ms[i].0 != ms[j].0
  }

  /** Every dict inside `j`, at any depth, has unique keys: what `json.loads`
      produces. */
  predicate WellFormed(j: Json)
    decreases j
  {
    match j
    case JArray(items) => forall x :: x in items ==> WellFormed(x)
    case JObject(ms) => UniqueKeys(ms) && forall kv :: kv in ms ==> WellFormed(kv.1)
    case _ => true
  }

  /** `d.get(k)`: the value of the first entry with key `k`, if any. */
  function Lookup(ms: Members, k: string): (r: Option<Json>)
    ensures r.Some? ==> (k, r.value) in ms
    ensures r.None? <==> forall i :: 0 <= i < |ms| ==> ms[i].0 != k
  {
    if ms == [] then None
    else if ms[0].0 == k then Some(ms[0].1)
    else Lookup(ms[1..], k)
  }

  /** `k in d` */
  predicate Has(ms: Members, k: string) {
    Lookup(ms, k).Some?
  }

  /** `d.get(k, default)` */
  function Get(ms: Members, k: string, default: Json): (r: Json)
    ensures Has(ms, k) ==> (k, r) in ms
    ensures !Has(ms, k) ==> r == default
  {
    Lookup(ms, k).GetOr(default)
  }

  /** In a dict, looking up the key of an entry finds that entry's value. */
  lemma {:induction false} LookupEntry(ms: Members, i: int)
    requires UniqueKeys(ms) && 0 <= i < |ms|
    ensures Lookup(ms, ms[i].0) == Some(ms[i].1)
  {
    if i > 0 {
      assert ms[0].0 != ms[i].0;
      assert ms[1..][i - 1] == ms[i];
      LookupEntry(ms[1..], i - 1);
    }
  }

  /** Every value stored in a well-formed dict is well formed. */
  lemma {:induction false} LookupWellFormed(ms: Members, k: string)
    ensures WellFormed(JObject(ms)) && Lookup(ms, k).Some? ==> WellFormed(Lookup(ms, k).value)
  {
  }

  /** `d.pop(k)`: the dict without the entry for `k`, the other entries in
      their order. */
  function Remove(ms: Members, k: string): (r: Members)
    ensures forall x :: Lookup(r, x) == if x == k then None else Lookup(ms, x)
    ensures forall kv :: kv in r ==> kv in ms
    ensures !Has(ms, k) ==> r == ms
    ensures UniqueKeys(ms) ==> UniqueKeys(r)
  {
    if ms == [] then []
    else
      var rest := Remove(ms[1..], k);
      assert forall kv :: kv in rest ==> kv in ms[1..];
      if ms[0].0 == k then rest
      else
        assert UniqueKeys(ms) ==> Lookup(ms[1..], ms[0].0).None? && Lookup(rest, ms[0].0).None?;
        ConsUnique(ms[0], rest);
        [ms[0]] + rest
  }

  /** In a dict, `pop` takes out exactly the entry holding the key; the
      entries before it and after it stay, in their order. */
  lemma {:induction false} RemoveAt(ms: Members, i: int)
    requires UniqueKeys(ms) && 0 <= i < |ms|
    ensures Remove(ms, ms[i].0) == ms[..i] + ms[i + 1..]
  {
    var k, tail := ms[i].0, ms[1..];
    assert UniqueKeys(tail);
    if i == 0 {
      assert !Has(tail, k);
      assert ms[..0] + ms[1..] == tail;
    } else {
      assert tail[i - 1] == ms[i];
      RemoveAt(tail, i - 1);
      assert Remove(ms, k) == [ms[0]] + (tail[..i - 1] + tail[i..]);
      assert [ms[0]] + (tail[..i - 1] + tail[i..]) == ms[..i] + ms[i + 1..];
    }
  }

  /** `d[k] = v`: an existing entry keeps its place and takes the new value;
      a new key is appended at the end. */
  function Assign(ms: Members, k: string, v: Json): (r: Members)
    ensures forall x :: Lookup(r, x) == if x == k then Some(v) else Lookup(ms, x)
    ensures !Has(ms, k) ==> r == ms + [(k, v)]
    ensures |r| == if Has(ms, k) then |ms| else |ms| + 1
    ensures UniqueKeys(ms) ==> UniqueKeys(r)
  {
    if ms == [] then [(k, v)]
    else if ms[0].0 == k then
      AssignHere(ms, v);
      [(k, v)] + ms[1..]
    else
      var rest := Assign(ms[1..], k, v);
      AssignBehind(ms, rest, k, v);
      AssignBehindShape(ms, rest, k, v);
      [ms[0]] + rest
  }

  /** Assigning to the key of the first entry replaces that entry. */
  lemma {:induction false} AssignHere(ms: Members, v: Json)
    requires ms != []
    ensures var k, r := ms[0].0, [(ms[0].0, v)] + ms[1..];
      && (forall x :: Lookup(r, x) == if x == k then Some(v) else Lookup(ms, x))
      && Has(ms, k) && |r| == |ms|
      && (UniqueKeys(ms) ==> UniqueKeys(r))
  {
    var first, tail := ms[0], ms[1..];
    assert ms == [first] + tail;
    LookupCons(first, tail);
    LookupCons((first.0, v), tail);
    assert UniqueKeys(ms) ==> UniqueKeys(tail) && Lookup(tail, first.0).None?;
    ConsUnique((first.0, v), tail);
  }

  /** Assigning behind a first entry with another key: lookups in the whole
      dict change as they change in the rest. */
  lemma {:induction false} AssignBehind(ms: Members, rest: Members, k: string, v: Json)
    requires ms != [] && ms[0].0 != k
    requires forall x :: Lookup(rest, x) == if x == k then Some(v) else Lookup(ms[1..], x)
    ensures forall x :: Lookup([ms[0]] + rest, x) == if x == k then Some(v) else Lookup(ms, x)
  {
    assert ms == [ms[0]] + ms[1..];
    LookupCons(ms[0], rest);
    LookupCons(ms[0], ms[1..]);
  }

  /** ... and the shape and the key uniqueness of the rest carry over. */
  lemma {:induction false} AssignBehindShape(ms: Members, rest: Members, k: string, v: Json)
    requires ms != [] && ms[0].0 != k
    requires Lookup(rest, ms[0].0) == Lookup(ms[1..], ms[0].0)
    requires !Has(ms[1..], k) ==> rest == ms[1..] + [(k, v)]
    requires |rest| == if Has(ms[1..], k) then |ms| - 1 else |ms|
    requires UniqueKeys(ms[1..]) ==> UniqueKeys(rest)
    ensures var r := [ms[0]] + rest;
      && (!Has(ms, k) ==> r == ms + [(k, v)])
      && |r| == (if Has(ms, k) then |ms| else |ms| + 1)
      && (UniqueKeys(ms) ==> UniqueKeys(r))
  {
    var first, tail := ms[0], ms[1..];
    assert ms == [first] + tail;
    assert Lookup(ms, k) == Lookup(tail, k);
    assert UniqueKeys(ms) ==> UniqueKeys(tail) && Lookup(tail, first.0).None?;
    ConsUnique(first, rest);
  }

  /** Looking up in a dict with one more entry in front. */
  lemma {:induction false} LookupCons(kv: (string, Json), ms: Members)
    ensures forall x :: Lookup([kv] + ms, x) == if x == kv.0 then Some(kv.1) else Lookup(ms, x)
  {
    assert ([kv] + ms)[1..] == ms;
  }

  /** Putting an entry in front of a dict that lacks its key keeps keys unique. */
  lemma {:induction false} ConsUnique(kv: (string, Json), ms: Members)
    ensures UniqueKeys(ms) && Lookup(ms, kv.0).None? ==> UniqueKeys([kv] + ms)
  {
    if UniqueKeys(ms) && Lookup(ms, kv.0).None? {
      var r := [kv] + ms;
      forall i, j | 0 <= i < j < |r| ensures r[i].0 != r[j].0 {
        if i > 0 {
          assert r[i] == ms[i - 1] && r[j] == ms[j - 1];
        } else {
          assert r[j] == ms[j - 1];
        }
      }
    }
  }
}
