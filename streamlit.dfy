/** How the Streamlit front end (frontend/streamlit.py) turns the analysis
    service's HTTP response into what it shows: the payload it picks, the
    JSON it decodes and unwraps, the legacy field names it renames, the
    fields it reports missing, the match score it parses and the gauge it
    draws, and the skills and projects it lists.

    The decoded response body (`response.json()`) is a parameter, and so is
    `json.loads`, as `decode`; drawing on the page is left out, and what is
    shown is collected in a `View`. */
module Streamlit {
  import opened Wrappers
  import opened PyStr
  import opened Json

  // ---------- payload selection (line 273) ----------

  /** `resp.get("analysis_result") or resp.get("result") or resp`: the first
      of the two fields whose value is truthy, else the whole response. */
  function SelectPayload(resp: Members): (result: Json)
    ensures Truthy(Get(resp, "analysis_result", JNull)) ==> result == Get(resp, "analysis_result", JNull)
    ensures !Truthy(Get(resp, "analysis_result", JNull)) && Truthy(Get(resp, "result", JNull)) ==>
      result == Get(resp, "result", JNull)
    ensures !Truthy(Get(resp, "analysis_result", JNull)) && !Truthy(Get(resp, "result", JNull)) ==>
      result == JObject(resp)
  {
    var a := Get(resp, "analysis_result", JNull);
    if Truthy(a) then a
    else
      var r := Get(resp, "result", JNull);
      if Truthy(r) then r else JObject(resp)
  }

  /** Lines 275-278: a string payload is decoded (`json.loads`, which may
      fail); anything else is used as it is. */
  function DecodePayload(result: Json, decode: string -> Option<Json>): (parsed: Option<Json>)
    ensures result.JStr? ==> parsed == decode(result.s)
    ensures !result.JStr? ==> parsed == Some(result)
  {
    if result.JStr? then decode(result.s) else Some(result)
  }

  // ---------- unwrapping (lines 280-284) ----------

  /** One level of nesting removed: a dict holding the key
      `analysis_result` is replaced by that key's value; otherwise one
      holding `result` by that value; anything else is kept. Presence of the
      key decides, not the truth of its value. */
  function Unwrap(parsed: Json): (p: Json)
    ensures parsed.JObject? && Has(parsed.members, "analysis_result") ==>
      Lookup(parsed.members, "analysis_result") == Some(p)
    ensures parsed.JObject? && !Has(parsed.members, "analysis_result") && Has(parsed.members, "result") ==>
      Lookup(parsed.members, "result") == Some(p)
    ensures !parsed.JObject? || (!Has(parsed.members, "analysis_result") && !Has(parsed.members, "result")) ==>
      p == parsed
    ensures WellFormed(parsed) ==> WellFormed(p)
  {
    if parsed.JObject? then
      LookupWellFormed(parsed.members, "analysis_result");
      LookupWellFormed(parsed.members, "result");
      if Has(parsed.members, "analysis_result") then Lookup(parsed.members, "analysis_result").value
      else if Has(parsed.members, "result") then Lookup(parsed.members, "result").value
      else parsed
    else parsed
  }

  /** Only one level is removed: a wrapper inside a wrapper survives. */
  lemma {:induction false} UnwrapOnlyOnce(inner: Json)
    ensures Unwrap(JObject([("result", JObject([("result", inner)]))])) == JObject([("result", inner)])
    ensures Unwrap(JObject([("analysis_result", JObject([("analysis_result", inner)]))]))
         == JObject([("analysis_result", inner)])
  {
  }

  /** `analysis_result` wins over `result` whatever their order in the dict. */
  lemma {:induction false} UnwrapPrefersAnalysisResult(a: Json, r: Json)
    ensures Unwrap(JObject([("result", r), ("analysis_result", a)])) == a
    ensures Unwrap(JObject([("analysis_result", a), ("result", r)])) == a
  {
    var ms := [("result", r), ("analysis_result", a)];
    assert ms[1..] == [("analysis_result", a)];
    assert Lookup(ms, "analysis_result") == Some(a);
  }

  // ---------- legacy key renaming (lines 287-294) ----------

  /** `key_map`, in its iteration order: legacy name, canonical name. */
  const KeyMap: seq<(string, string)> := [
    ("match_score", "match_percentage"),
    ("missing", "missing_skills"),
    ("projects", "suggested_projects")
  ]

  /** No key occurs twice anywhere among the legacy and canonical names. */
  predicate Disjoint(pairs: seq<(string, string)>) {
    && (forall i, j :: 0 <= i < |pairs| && 0 <= j < |pairs| ==> pairs[i].0 != pairs[j].1)
    && (forall i, j :: 0 <= i < j < |pairs| ==> pairs[i].0 != pairs[j].0 && pairs[i].1 != pairs[j].1)
  }

  lemma {:induction false} KeyMapDisjoint()
    ensures Disjoint(KeyMap)
  {
  }

  /** One step of the loop: when the legacy key is present and the canonical
      key absent, the legacy entry is popped and its value appended under
      the canonical key; otherwise the dict is left as it is. */
  function RenameOne(ms: Members, legacy: string, canonical: string): (r: Members)
    requires legacy != canonical
    ensures Has(ms, legacy) && !Has(ms, canonical) ==>
      r == Remove(ms, legacy) + [(canonical, Lookup(ms, legacy).value)]
    ensures !(Has(ms, legacy) && !Has(ms, canonical)) ==> r == ms
    ensures forall x ::
              Lookup(r, x) ==
                if Has(ms, legacy) && !Has(ms, canonical) then
                  (if x == canonical then Lookup(ms, legacy) else if x == legacy then None else Lookup(ms, x))
                else Lookup(ms, x)
    ensures UniqueKeys(ms) ==> UniqueKeys(r)
  {
    if Has(ms, legacy) && !Has(ms, canonical) then
      Assign(Remove(ms, legacy), canonical, Lookup(ms, legacy).value)
    else ms
  }

  /** The dict after the loop has run over the first `|pairs|` pairs. */
  function Renamed(ms: Members, pairs: seq<(string, string)>): (r: Members)
    requires forall i :: 0 <= i < |pairs| ==> pairs[i].0 != pairs[i].1
    ensures UniqueKeys(ms) ==> UniqueKeys(r)
  {
    if pairs == [] then ms
    else
      var last := pairs[|pairs| - 1];
      RenameOne(Renamed(ms, pairs[..|pairs| - 1]), last.0, last.1)
  }

  /** The dict once every legacy name of `key_map` has been dealt with. */
  function Normalized(ms: Members): Members {
    KeyMapDisjoint();
    Renamed(ms, KeyMap)
  }

  /** A key that is no legacy and no canonical name keeps its value (or its
      absence) through the loop. */
  lemma {:induction false} RenamedUntouched(ms: Members, pairs: seq<(string, string)>, x: string)
    requires Disjoint(pairs)
    requires forall i :: 0 <= i < |pairs| ==> x != pairs[i].0 && x != pairs[i].1
    ensures Lookup(Renamed(ms, pairs), x) == Lookup(ms, x)
  {
    if pairs != [] {
      var init := pairs[..|pairs| - 1];
      assert Disjoint(init);
      RenamedUntouched(ms, init, x);
    }
  }

  /** What the loop does to the two keys of one pair: they end as one
      `RenameOne` on the original dict would leave them. */
  lemma {:induction false} RenamedPair(ms: Members, pairs: seq<(string, string)>, j: int)
    requires Disjoint(pairs) && 0 <= j < |pairs|
    ensures var (legacy, canonical) := pairs[j];
      var moved := Has(ms, legacy) && !Has(ms, canonical);
      && Lookup(Renamed(ms, pairs), canonical) == (if moved then Lookup(ms, legacy) else Lookup(ms, canonical))
      && Lookup(Renamed(ms, pairs), legacy) == (if moved then None else Lookup(ms, legacy))
  {
    var init := pairs[..|pairs| - 1];
    assert Disjoint(init);
    var (legacy, canonical) := pairs[j];
    if j == |pairs| - 1 {
      RenamedUntouched(ms, init, legacy);
      RenamedUntouched(ms, init, canonical);
    } else {
      assert init[j] == pairs[j];
      RenamedPair(ms, init, j);
    }
  }

  /** A legacy key present while its canonical key is absent: afterwards the
      canonical key holds the old value and the legacy key is gone. */
  lemma {:induction false} LegacyKeyMoved(ms: Members, j: int)
    requires 0 <= j < |KeyMap|
    requires Has(ms, KeyMap[j].0) && !Has(ms, KeyMap[j].1)
    ensures Lookup(Normalized(ms), KeyMap[j].1) == Lookup(ms, KeyMap[j].0)
    ensures !Has(Normalized(ms), KeyMap[j].0)
  {
    KeyMapDisjoint();
    RenamedPair(ms, KeyMap, j);
  }

  /** A canonical key already present is never overwritten, and its legacy
      counterpart then stays as it was. */
  lemma {:induction false} CanonicalKeyKept(ms: Members, j: int)
    requires 0 <= j < |KeyMap|
    requires Has(ms, KeyMap[j].1)
    ensures Lookup(Normalized(ms), KeyMap[j].1) == Lookup(ms, KeyMap[j].1)
    ensures Lookup(Normalized(ms), KeyMap[j].0) == Lookup(ms, KeyMap[j].0)
  {
    KeyMapDisjoint();
    RenamedPair(ms, KeyMap, j);
  }

  /** With neither name of a pair present, neither appears. */
  lemma {:induction false} NeitherKeyAppears(ms: Members, j: int)
    requires 0 <= j < |KeyMap|
    requires !Has(ms, KeyMap[j].0) && !Has(ms, KeyMap[j].1)
    ensures !Has(Normalized(ms), KeyMap[j].0) && !Has(Normalized(ms), KeyMap[j].1)
  {
    KeyMapDisjoint();
    RenamedPair(ms, KeyMap, j);
  }

  /** Keys outside the map are never touched. */
  lemma {:induction false} OtherKeysUntouched(ms: Members, x: string)
    requires forall i :: 0 <= i < |KeyMap| ==> x != KeyMap[i].0 && x != KeyMap[i].1
    ensures Lookup(Normalized(ms), x) == Lookup(ms, x)
  {
    KeyMapDisjoint();
    RenamedUntouched(ms, KeyMap, x);
  }

  /** After the loop no pair has its legacy key present with its canonical
      key absent. */
  lemma {:induction false} NormalizedSettled(ms: Members, j: int)
    requires 0 <= j < |KeyMap|
    ensures !(Has(Normalized(ms), KeyMap[j].0) && !Has(Normalized(ms), KeyMap[j].1))
  {
    KeyMapDisjoint();
    RenamedPair(ms, KeyMap, j);
  }

  /** A settled dict is left exactly as it is by any prefix of the loop. */
  lemma {:induction false} RenamedSettled(ms: Members, pairs: seq<(string, string)>)
    requires Disjoint(pairs)
    requires forall j :: 0 <= j < |pairs| ==> !(Has(ms, pairs[j].0) && !Has(ms, pairs[j].1))
    ensures Renamed(ms, pairs) == ms
  {
    if pairs != [] {
      var init := pairs[..|pairs| - 1];
      assert Disjoint(init);
      RenamedSettled(ms, init);
    }
  }

  /** Renaming a second time changes nothing, order included. */
  lemma {:induction false} NormalizeIdempotent(ms: Members)
    ensures Normalized(Normalized(ms)) == Normalized(ms)
  {
    KeyMapDisjoint();
    forall j | 0 <= j < |KeyMap|
      ensures !(Has(Normalized(ms), KeyMap[j].0) && !Has(Normalized(ms), KeyMap[j].1))
    {
      NormalizedSettled(ms, j);
    }
    RenamedSettled(Normalized(ms), KeyMap);
  }

  /** The dict holding value `vs[i]` under the legacy name of pair `i`, in
      the pairs' order; and the same values under the canonical names. */
  function LegacyNamed(pairs: seq<(string, string)>, vs: seq<Json>): (r: Members)
    requires |vs| == |pairs|
    ensures |r| == |pairs| && forall i :: 0 <= i < |r| ==> r[i] == (pairs[i].0, vs[i])
  {
    seq(|pairs|, i requires 0 <= i < |pairs| => (pairs[i].0, vs[i]))
  }

  function CanonicalNamed(pairs: seq<(string, string)>, vs: seq<Json>): (r: Members)
    requires |vs| == |pairs|
    ensures |r| == |pairs| && forall i :: 0 <= i < |r| ==> r[i] == (pairs[i].1, vs[i])
  {
    seq(|pairs|, i requires 0 <= i < |pairs| => (pairs[i].1, vs[i]))
  }

  /** Renaming the first entry of a dict whose other entries hold neither
      name moves that entry, under its new name, to the end. */
  lemma {:induction false} RenameFront(legacy: string, canonical: string, v: Json, rest: Members)
    requires legacy != canonical
    requires !Has(rest, legacy) && !Has(rest, canonical)
    ensures RenameOne([(legacy, v)] + rest, legacy, canonical) == rest + [(canonical, v)]
  {
    var ms := [(legacy, v)] + rest;
    assert ms[0] == (legacy, v) && ms[1..] == rest;
    assert Lookup(ms, legacy) == Some(v);
    assert Lookup(ms, canonical) == Lookup(rest, canonical);
    assert Remove(ms, legacy) == Remove(rest, legacy);
  }

  /** A dict holding only legacy names, in the map's order: after the first
      `k` pairs, the first `k` entries have moved to the end under their
      canonical names, in the same order. */
  lemma {:induction false} LegacyRenamedInOrder(pairs: seq<(string, string)>, vs: seq<Json>, k: nat)
    requires Disjoint(pairs) && |vs| == |pairs| && k <= |pairs|
    ensures Renamed(LegacyNamed(pairs, vs), pairs[..k])
         == LegacyNamed(pairs, vs)[k..] + CanonicalNamed(pairs, vs)[..k]
  {
    var legacy, canonical := LegacyNamed(pairs, vs), CanonicalNamed(pairs, vs);
    if k == 0 {
      assert pairs[..0] == [] && legacy[0..] + canonical[..0] == legacy;
    } else {
      LegacyRenamedInOrder(pairs, vs, k - 1);
      LegacyRenamedStep(pairs, vs, k);
    }
  }

  /** The step of the induction: pair `k - 1` moves the entry now at the
      front to the end. */
  lemma {:induction false} LegacyRenamedStep(pairs: seq<(string, string)>, vs: seq<Json>, k: nat)
    requires Disjoint(pairs) && |vs| == |pairs| && 0 < k <= |pairs|
    requires Renamed(LegacyNamed(pairs, vs), pairs[..k - 1])
          == LegacyNamed(pairs, vs)[k - 1..] + CanonicalNamed(pairs, vs)[..k - 1]
    ensures Renamed(LegacyNamed(pairs, vs), pairs[..k])
         == LegacyNamed(pairs, vs)[k..] + CanonicalNamed(pairs, vs)[..k]
  {
    var legacy, canonical := LegacyNamed(pairs, vs), CanonicalNamed(pairs, vs);
    var rest := legacy[k..] + canonical[..k - 1];
    RenamedLast(legacy, pairs, k);
    LegacyShape(pairs, vs, k);
    NamesAfter(pairs, vs, k);
    RenameFront(pairs[k - 1].0, pairs[k - 1].1, vs[k - 1], rest);
  }

  /** The loop over the first `k` pairs is the loop over the first `k - 1`
      followed by pair `k - 1`. */
  lemma {:induction false} RenamedLast(ms: Members, pairs: seq<(string, string)>, k: nat)
    requires forall i :: 0 <= i < |pairs| ==> pairs[i].0 != pairs[i].1
    requires 0 < k <= |pairs|
    ensures Renamed(ms, pairs[..k]) == RenameOne(Renamed(ms, pairs[..k - 1]), pairs[k - 1].0, pairs[k - 1].1)
  {
    assert pairs[..k][..k - 1] == pairs[..k - 1];
  }

  /** Before pair `k - 1` is handled, its legacy entry is at the front; after,
      its canonical entry is at the end. */
  lemma {:induction false} LegacyShape(pairs: seq<(string, string)>, vs: seq<Json>, k: nat)
    requires |vs| == |pairs| && 0 < k <= |pairs|
    ensures var legacy, canonical := LegacyNamed(pairs, vs), CanonicalNamed(pairs, vs);
      var rest := legacy[k..] + canonical[..k - 1];
      && legacy[k - 1..] + canonical[..k - 1] == [(pairs[k - 1].0, vs[k - 1])] + rest
      && rest + [(pairs[k - 1].1, vs[k - 1])] == legacy[k..] + canonical[..k]
  {
    var legacy, canonical := LegacyNamed(pairs, vs), CanonicalNamed(pairs, vs);
    assert legacy[k - 1..] == [legacy[k - 1]] + legacy[k..];
    assert canonical[..k] == canonical[..k - 1] + [canonical[k - 1]];
  }

  /** Neither name of pair `k - 1` is among the legacy names after it or the
      canonical names before it. */
  lemma {:induction false} NamesAfter(pairs: seq<(string, string)>, vs: seq<Json>, k: nat)
    requires Disjoint(pairs) && |vs| == |pairs| && 0 < k <= |pairs|
    ensures var rest := LegacyNamed(pairs, vs)[k..] + CanonicalNamed(pairs, vs)[..k - 1];
      !Has(rest, pairs[k - 1].0) && !Has(rest, pairs[k - 1].1)
  {
    var legacy, canonical := LegacyNamed(pairs, vs), CanonicalNamed(pairs, vs);
    var rest := legacy[k..] + canonical[..k - 1];
    forall i | 0 <= i < |rest| ensures rest[i].0 != pairs[k - 1].0 && rest[i].0 != pairs[k - 1].1 {
      if i < |pairs| - k {
        assert rest[i] == legacy[k + i];
      } else {
        assert rest[i] == canonical[i - (|pairs| - k)];
      }
    }
  }

  /** All three legacy names, in the map's order, come out as the canonical
      names in the same order. */
  lemma {:induction false} AllLegacyNormalized(vs: seq<Json>)
    requires |vs| == |KeyMap|
    ensures Normalized(LegacyNamed(KeyMap, vs)) == CanonicalNamed(KeyMap, vs)
  {
    KeyMapDisjoint();
    LegacyRenamedInOrder(KeyMap, vs, |KeyMap|);
    assert KeyMap[..|KeyMap|] == KeyMap;
  }

  /** The `parsed` dict, which the renaming loop changes in place. */
  class Dict {
    var members: Members

    ghost predicate Valid()
      reads this
    {
      UniqueKeys(members)
    }

    constructor (ms: Members)
      requires UniqueKeys(ms)
      ensures Valid() && members == ms
    {
      members := ms;
    }

    /** `k in d` */
    predicate Contains(k: string)
      reads this
    {
      Has(members, k)
    }

    /** `d.pop(k)` for a key that is present. */
    method Pop(k: string) returns (v: Json)
      requires Valid() && Has(members, k)
      modifies this
      ensures Valid()
      ensures Some(v) == Lookup(old(members), k)
      ensures members == Remove(old(members), k)
    {
      v := Lookup(members, k).value;
      members := Remove(members, k);
    }

    /** `d[k] = v` */
    method Put(k: string, v: Json)
      requires Valid()
      modifies this
      ensures Valid()
      ensures members == Assign(old(members), k, v)
    {
      members := Assign(members, k, v);
    }
  }

  /** Lines 292-294: for each pair of `key_map`, in order, move the legacy
      entry to the canonical name if the legacy key is there and the
      canonical one is not. */
  method NormalizeKeys(d: Dict)
    requires d.Valid()
    modifies d
    ensures d.Valid()
    ensures d.members == Normalized(old(d.members))
  {
    KeyMapDisjoint();
    ghost var start := d.members;
    for i := 0 to |KeyMap|
      invariant d.Valid()
      invariant d.members == Renamed(start, KeyMap[..i])
    {
      var oldKey, newKey := KeyMap[i].0, KeyMap[i].1;
      ghost var before := d.members;
      if d.Contains(oldKey) && !d.Contains(newKey) {
        var v := d.Pop(oldKey);
        d.Put(newKey, v);
        assert d.members == RenameOne(before, oldKey, newKey);
      }
      RenamedLast(start, KeyMap, i + 1);
    }
    assert KeyMap[..|KeyMap|] == KeyMap;
  }

  // ---------- required fields (lines 296-297) ----------

  const RequiredFields: seq<string> := ["match_percentage", "missing_skills", "suggested_projects"]

  /** `f not in parsed or parsed[f] is None` */
  predicate IsAbsent(ms: Members, f: string) {
    Lookup(ms, f).None? || Lookup(ms, f) == Some(JNull)
  }

  /** `xs` is `ys` with some elements deleted, the rest in their order. */
  predicate Subsequence(xs: seq<string>, ys: seq<string>)
    decreases |ys|
  {
    if xs == [] then true
    else if ys == [] then false
    else if xs[0] == ys[0] then Subsequence(xs[1..], ys[1..])
    else Subsequence(xs, ys[1..])
  }

  /** The fields of `fields` that are absent or null, in the order of `fields`. */
  function MissingAmong(ms: Members, fields: seq<string>): (r: seq<string>)
    ensures forall f :: f in r <==> f in fields && IsAbsent(ms, f)
    ensures Subsequence(r, fields)
  {
    if fields == [] then []
    else
      var rest := MissingAmong(ms, fields[1..]);
      if IsAbsent(ms, fields[0]) then
        var r := [fields[0]] + rest;
        assert r[0] == fields[0] && r[1..] == rest;
        r
      else
        assert rest != [] ==> rest[0] in rest && rest[0] != fields[0];
        rest
  }

  /** `missing_fields`: the required fields absent or null, in the fixed
      order `match_percentage`, `missing_skills`, `suggested_projects`. */
  function MissingFields(ms: Members): (r: seq<string>)
    ensures forall f :: f in r <==> f in RequiredFields && IsAbsent(ms, f)
    ensures Subsequence(r, RequiredFields)
  {
    MissingAmong(ms, RequiredFields)
  }

  /** The warning is raised exactly when some required field is absent or null. */
  lemma {:induction false} MissingFieldsEmpty(ms: Members)
    ensures MissingFields(ms) == [] <==> forall i :: 0 <= i < |RequiredFields| ==> !IsAbsent(ms, RequiredFields[i])
  {
    if MissingFields(ms) != [] {
      assert MissingFields(ms)[0] in MissingFields(ms);
    }
  }

  // ---------- match score (lines 305-309) ----------

  /** `str(v)` for the values whose text can parse as an integer. A float,
      list or dict prints as text that `int()` always rejects (it holds a
      `.`, `e`, `inf`, `nan`, `[` or `{`), given here as `None`. */
  function ScoreText(v: Json): (t: Option<string>)
    ensures v.JStr? ==> t == Some(v.s)
    ensures v.JInt? ==> t == Some(Decimal(v.i))
    ensures v.JFloat? || v.JArray? || v.JObject? ==> t.None?
  {
    match v
    case JNull => Some("None")
    case JBool(b) => Some(if b then "True" else "False")
    case JInt(n) => Some(Decimal(n))
    case JStr(s) => Some(s)
    case _ => None
  }

  /** `int(str(v).replace('%', '').strip())`, or 0 when that raises. */
  function ScoreOf(v: Json): (r: int)
    ensures ScoreText(v).None? ==> r == 0
    ensures ScoreText(v).Some? && ParseInt(Strip(Without(ScoreText(v).value, '%'))).None? ==> r == 0
    ensures ScoreText(v).Some? && ParseInt(Strip(Without(ScoreText(v).value, '%'))).Some? ==>
      r == ParseInt(Strip(Without(ScoreText(v).value, '%'))).value
  {
    match ScoreText(v)
    case None => 0
    case Some(t) => ParseInt(Strip(Without(t, '%'))).GetOr(0)
  }

  /** The match score of the normalised dict; a missing field counts as 0. */
  function MatchScore(ms: Members): (r: int)
    ensures !Has(ms, "match_percentage") ==> r == 0
    ensures Has(ms, "match_percentage") ==> r == ScoreOf(Lookup(ms, "match_percentage").value)
  {
    ScoreOfInt(0);
    ScoreOf(Get(ms, "match_percentage", JInt(0)))
  }

  /** A percentage written as the model is asked to write it, digits then
      `%`, reads back as its number. */
  lemma {:induction false} ScoreOfPercent(n: int)
    ensures ScoreOf(JStr(Decimal(n) + "%")) == n
  {
    var d := Decimal(n);
    DecimalPlain(n);
    WithoutSuffix(d);
    assert Without(d + "%", '%') == d;
    StripTrimmed(d);
    assert Strip(d) == d;
    ParseDecimal(n);
    assert ScoreText(JStr(d + "%")) == Some(d + "%");
  }

  /** A trailing `%` is deleted. */
  lemma {:induction false} WithoutSuffix(d: string)
    requires '%' !in d
    ensures Without(d + "%", '%') == d
  {
    WithoutAppend(d, "%", '%');
    WithoutAbsent(d, '%');
    assert Without("%", '%') == "";
  }

  /** An integer value is its own score. */
  lemma {:induction false} ScoreOfInt(n: int)
    ensures ScoreOf(JInt(n)) == n
  {
    DecimalPlain(n);
    WithoutAbsent(Decimal(n), '%');
    StripTrimmed(Decimal(n));
    ParseDecimal(n);
  }

  /** A value that prints as a word rather than a number gives 0. */
  lemma {:induction false} ScoreOfWord(v: Json, w: string)
    requires ScoreText(v) == Some(w)
    requires |w| > 0 && !IsDigit(w[|w| - 1]) && Trimmed(w) && '%' !in w
    ensures ScoreOf(v) == 0
  {
    WithoutAbsent(w, '%');
    StripTrimmed(w);
    assert ParseInt(Strip(Without(w, '%'))) == ParseInt(w);
  }

  /** `null` prints as `None` and gives 0. */
  lemma {:induction false} ScoreOfNull()
    ensures ScoreOf(JNull) == 0
  {
    ScoreOfWord(JNull, "None");
  }

  /** A boolean prints as `True` or `False` and gives 0. */
  lemma {:induction false} ScoreOfBool(b: bool)
    ensures ScoreOf(JBool(b)) == 0
  {
    if b {
      ScoreOfWord(JBool(b), "True");
    } else {
      ScoreOfWord(JBool(b), "False");
    }
  }

  /** `%` signs are deleted wherever they stand. */
  lemma {:induction false} WithoutAround(d: string)
    requires '%' !in d
    ensures Without(" %" + d + "% ", '%') == " " + d + " "
  {
    WithoutAbsent(d, '%');
    WithoutAppend(" %" + d, "% ", '%');
    WithoutAppend(" %", d, '%');
    assert Without(" %", '%') == " ";
    assert Without("% ", '%') == " ";
  }

  /** One space on either side of trimmed text is stripped. */
  lemma {:induction false} StripPadded(d: string)
    requires d != [] && Trimmed(d)
    ensures Strip(" " + d + " ") == d
  {
    var tail := d + [' '];
    assert " " + d + " " == [' '] + tail;
    TrimOneLeft(' ', tail);
    TrimOneRight(d, ' ');
    assert TrimRight(TrimLeft([' '] + tail)) == d;
  }

  /** Every `%` goes, wherever it stands, and whitespace around the number
      is stripped. */
  lemma {:induction false} ScoreIgnoresPercentSigns(n: int)
    ensures ScoreOf(JStr(" %" + Decimal(n) + "% ")) == n
  {
    DecimalPlain(n);
    WithoutAround(Decimal(n));
    StripPadded(Decimal(n));
    ParseDecimal(n);
  }

  // ---------- gauge (lines 208-220) ----------

  /** Lines 209-210: the score drawn on the gauge, forced into 0..100. */
  function Clamp(score: int): (s: int)
    ensures 0 <= s <= 100
    ensures 0 <= score <= 100 ==> s == score
    ensures score < 0 ==> s == 0
    ensures score > 100 ==> s == 100
  {
    if score < 0 then 0 else if score > 100 then 100 else score
  }

  datatype Band = Green | Orange | Red

  /** Lines 215-220: green from 80, orange from 60, red below. */
  function BandOf(score: int): (b: Band)
    ensures b == Green <==> score >= 80
    ensures b == Orange <==> 60 <= score < 80
    ensures b == Red <==> score < 60
  {
    if score >= 80 then Green else if score >= 60 then Orange else Red
  }

  /** The stroke colour of each band. */
  function Stroke(b: Band): string {
    match b
    case Green => "#38a169"
    case Orange => "#ed8936"
    case Red => "#e53e3e"
  }

  /** The emoji shown beside the score. */
  function Emoji(b: Band): string {
    match b
    case Green => "\U{1F389}"
    case Orange => "\U{1F44D}"
    case Red => "\U{26A0}\U{FE0F}"
  }

  /** A higher score never gets a worse band. */
  lemma {:induction false} BandMonotone(s1: int, s2: int)
    requires s1 <= s2
    ensures BandOf(Clamp(s1)) == Green ==> BandOf(Clamp(s2)) == Green
    ensures BandOf(Clamp(s2)) == Red ==> BandOf(Clamp(s1)) == Red
  {
  }

  /** `render_circular_gauge`: the score is reassigned into range, then the
      band, with its stroke colour and emoji, is chosen from it. */
  method RenderGauge(score: int) returns (shown: int, band: Band, stroke: string, emoji: string)
    ensures shown == Clamp(score)
    ensures band == BandOf(shown)
    ensures stroke == Stroke(band) && emoji == Emoji(band)
  {
    shown := score;
    if shown < 0 { shown := 0; }
    if shown > 100 { shown := 100; }
    if shown >= 80 {
      band, stroke, emoji := Green, "#38a169", "\U{1F389}";
    } else if shown >= 60 {
      band, stroke, emoji := Orange, "#ed8936", "\U{1F44D}";
    } else {
      band, stroke, emoji := Red, "#e53e3e", "\U{26A0}\U{FE0F}";
    }
  }

  // ---------- skills and projects (lines 323-347) ----------

  /** One listed item as drawn: the stripped text of a string, the printed
      form of a number, `None` or a boolean, or (`Repr`) the printed form of
      a float, list or dict, which is never blank. */
  datatype Entry = Text(text: string) | Repr(value: Json)

  predicate Blank(e: Entry) {
    e == Text("")
  }

  /** `str(item).strip()` */
  function EntryOf(item: Json): (e: Entry)
    ensures item.JStr? ==> e == Text(Strip(item.s))
    ensures !item.JStr? ==> !Blank(e)
  {
    match item
    case JStr(s) => Text(Strip(s))
    case JInt(n) => Text(Decimal(n))
    case JNull => Text("None")
    case JBool(b) => Text(if b then "True" else "False")
    case _ => Repr(item)
  }

  /** The entries drawn for `for x in items: if str(x).strip(): draw`: the
      non-blank ones, in their order. */
  function Rendered(items: seq<Json>): (r: seq<Entry>)
    ensures |r| <= |items|
    ensures forall i :: 0 <= i < |r| ==> !Blank(r[i])
  {
    if items == [] then []
    else (if Blank(EntryOf(items[0])) then [] else [EntryOf(items[0])]) + Rendered(items[1..])
  }

  /** Filtering works item by item: two runs render as the first's entries
      followed by the second's. */
  lemma {:induction false} RenderedAppend(xs: seq<Json>, ys: seq<Json>)
    ensures Rendered(xs + ys) == Rendered(xs) + Rendered(ys)
  {
    if xs == [] {
      assert xs + ys == ys;
    } else {
      var h := if Blank(EntryOf(xs[0])) then [] else [EntryOf(xs[0])];
      assert (xs + ys)[0] == xs[0];
      assert (xs + ys)[1..] == xs[1..] + ys;
      assert Rendered(xs + ys) == h + Rendered(xs[1..] + ys);
      RenderedAppend(xs[1..], ys);
      EntriesAssoc(h, Rendered(xs[1..]), Rendered(ys));
    }
  }

  /** Concatenating entry runs is associative. */
  lemma {:induction false} EntriesAssoc(a: seq<Entry>, b: seq<Entry>, c: seq<Entry>)
    ensures a + (b + c) == (a + b) + c
  {
  }

  /** When nothing is blank, every item is drawn, in order. */
  lemma {:induction false} RenderedKeepsAll(items: seq<Json>)
    requires forall i :: 0 <= i < |items| ==> !Blank(EntryOf(items[i]))
    ensures |Rendered(items)| == |items|
    ensures forall i :: 0 <= i < |items| ==> Rendered(items)[i] == EntryOf(items[i])
  {
    if items != [] {
      RenderedKeepsAll(items[1..]);
    }
  }

  /** A blank string item draws nothing. */
  lemma {:induction false} RenderedBlankItem(s: string)
    requires Strip(s) == ""
    ensures Rendered([JStr(s)]) == []
  {
    assert [JStr(s)][1..] == [];
  }

  /** Rendering a run with one item singled out. */
  lemma {:induction false} RenderedAround(xs: seq<Json>, x: Json, ys: seq<Json>)
    ensures Rendered(xs + [x] + ys) == Rendered(xs) + Rendered([x]) + Rendered(ys)
  {
    RenderedAppend(xs + [x], ys);
    RenderedAppend(xs, [x]);
  }

  /** Blank strings are dropped, wherever they stand. */
  lemma {:induction false} RenderedDropsBlank(xs: seq<Json>, s: string, ys: seq<Json>)
    requires Strip(s) == ""
    ensures Rendered(xs + [JStr(s)] + ys) == Rendered(xs + ys)
  {
    RenderedAround(xs, JStr(s), ys);
    RenderedBlankItem(s);
    RenderedAppend(xs, ys);
    EmptyBetween(Rendered(xs), Rendered(ys));
  }

  lemma {:induction false} EmptyBetween(a: seq<Entry>, b: seq<Entry>)
    ensures a + [] + b == a + b
  {
  }

  /** `for x in v`: a list's items, a string's characters, a dict's keys;
      `None` when iterating raises (a number or a boolean). */
  function Iterated(v: Json): (items: Option<seq<Json>>)
    ensures v.JArray? ==> items == Some(v.items)
    ensures v.JStr? ==>
      (items.Some? && |items.value| == |v.s| &&
       forall i :: 0 <= i < |v.s| ==> items.value[i] == JStr([v.s[i]]))
    ensures v.JObject? ==>
      (items.Some? && |items.value| == |v.members| &&
       forall i :: 0 <= i < |v.members| ==> items.value[i] == JStr(v.members[i].0))
    ensures v.JNull? || v.JBool? || v.JInt? || v.JFloat? ==> items.None?
  {
    match v
    case JArray(xs) => Some(xs)
    case JStr(s) => Some(seq(|s|, i requires 0 <= i < |s| => JStr([s[i]])))
    case JObject(ms) => Some(seq(|ms|, i requires 0 <= i < |ms| => JStr(ms[i].0)))
    case _ => None
  }

  /** One of the two cards: the "nothing here" message when the value is
      falsy, else the rendered entries. */
  datatype Listing = NothingToList | Listed(entries: seq<Entry>)

  /** `ms = v or []` then `if ms: for x in ms: ...`; `None` when the value is
      truthy but cannot be iterated, which raises. */
  function ListingOf(v: Json): (l: Option<Listing>)
    ensures !Truthy(v) ==> l == Some(NothingToList)
    ensures v.JArray? && v.items != [] ==> l == Some(Listed(Rendered(v.items)))
    ensures Truthy(v) && (v.JInt? || v.JFloat? || v.JBool?) ==> l.None?
    ensures Truthy(v) && (v.JStr? || v.JObject?) ==> l == Some(Listed(Rendered(Iterated(v).value)))
  {
    if !Truthy(v) then Some(NothingToList)
    else
      match Iterated(v)
      case None => None
      case Some(items) => Some(Listed(Rendered(items)))
  }

  // ---------- the whole response (lines 269-350) ----------

  /** What the page shows for a well-formed analysis. */
  datatype Report = Report(
    fields: Members,              // the dict after unwrapping and renaming
    missingFields: seq<string>,   // the warning's list; empty means no warning
    matchScore: int,              // the parsed score
    gaugeScore: int,              // the score drawn on the gauge
    band: Band,
    skills: Listing,
    projects: Listing)

  /** The outcome of one response: an API error for a status other than
      200, "Could not parse JSON" for a body or payload that does not
      decode, "Unexpected error" for an exception raised on the way, or the
      rendered report. */
  datatype View = ApiError(status: int) | BadJson | Unexpected | Displayed(report: Report)

  /** The report drawn for a normalised dict, or `Unexpected` when a skills
      or projects value cannot be iterated. */
  function Render(fields: Members): View {
    var score := MatchScore(fields);
    var skills := ListingOf(Get(fields, "missing_skills", JArray([])));
    var projects := ListingOf(Get(fields, "suggested_projects", JArray([])));
    if skills.None? || projects.None? then Unexpected
    else Displayed(Report(fields, MissingFields(fields), score, Clamp(score), BandOf(Clamp(score)),
                          skills.value, projects.value))
  }

  /** The whole handling of one response, step by step. A non-dict
      response body, or a payload that is not a dict once unwrapped, makes
      a later `.get`, `in` or `pop` raise: `Unexpected`. */
  function Outcome(status: int, body: Option<Json>, decode: string -> Option<Json>): View {
    if status != 200 then ApiError(status)
    else if body.None? then BadJson
    else if !body.value.JObject? then Unexpected
    else
      match DecodePayload(SelectPayload(body.value.members), decode)
      case None => BadJson
      case Some(parsed) =>
        var p := Unwrap(parsed);
        if !p.JObject? then Unexpected
        else Render(Normalized(p.members))
  }

  /** Lines 269-350 as the source runs them: `parsed` is reassigned while
      decoding and unwrapping, then changed in place by the renaming loop. */
  method HandleResponse(status: int, body: Option<Json>, decode: string -> Option<Json>) returns (view: View)
    requires body.Some? ==> WellFormed(body.value)
    requires forall s :: decode(s).Some? ==> WellFormed(decode(s).value)
    ensures view == Outcome(status, body, decode)
  {
    if status != 200 {
      return ApiError(status);
    }
    if body.None? {
      return BadJson;
    }
    var resp := body.value;
    if !resp.JObject? {
      return Unexpected;
    }
    var result := SelectPayload(resp.members);
    LookupWellFormed(resp.members, "analysis_result");
    LookupWellFormed(resp.members, "result");
    var parsed: Json;
    if result.JStr? {
      var decoded := decode(result.s);
      if decoded.None? {
        return BadJson;
      }
      parsed := decoded.value;
    } else {
      parsed := result;
    }
    assert DecodePayload(result, decode) == Some(parsed);
    assert WellFormed(parsed);
    ghost var decoded := parsed;
    if parsed.JObject? {
      LookupWellFormed(parsed.members, "analysis_result");
      LookupWellFormed(parsed.members, "result");
      if Has(parsed.members, "analysis_result") {
        parsed := Lookup(parsed.members, "analysis_result").value;
      } else if Has(parsed.members, "result") {
        parsed := Lookup(parsed.members, "result").value;
      }
    }
    assert parsed == Unwrap(decoded);
    if !parsed.JObject? {
      return Unexpected;
    }
    var d := new Dict(parsed.members);
    NormalizeKeys(d);
    var fields := d.members;
    assert fields == Normalized(Unwrap(decoded).members);
    view := RenderFields(fields);
  }

  /** Lines 296-347: the warning, the score and its gauge, then the two
      listings of the normalised dict. */
  method RenderFields(fields: Members) returns (view: View)
    ensures view == Render(fields)
  {
    var score := MatchScore(fields);
    var shown, band, stroke, emoji := RenderGauge(score);
    var skills := ListingOf(Get(fields, "missing_skills", JArray([])));
    if skills.None? {
      return Unexpected;
    }
    var projects := ListingOf(Get(fields, "suggested_projects", JArray([])));
    if projects.None? {
      return Unexpected;
    }
    view := Displayed(Report(fields, MissingFields(fields), score, shown, band, skills.value, projects.value));
  }
}
