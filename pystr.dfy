/** The few Python string operations the analyser relies on, stated over
    `seq<char>`: `str.isspace`/`str.strip()`, `str.replace(c, '')`,
    `str(n)` for an integer and `int(s)` for a base-10 literal. */
module PyStr {
  import opened Wrappers

  /** `c.isspace()`: the characters `str.strip()` with no argument removes. */
  predicate IsSpace(c: char) {
    || c == ' '
    || ('\t' <= c <= '\r')
    || ('\U{1C}' <= c <= '\U{1F}')
    || c == '\U{85}'
    || c == '\U{A0}'
    || c == '\U{1680}'
    || ('\U{2000}' <= c <= '\U{200A}')
    || c == '\U{2028}'
    || c == '\U{2029}'
    || c == '\U{202F}'
    || c == '\U{205F}'
    || c == '\U{3000}'
  }

  /** True when `s` neither starts nor ends with whitespace. */
  predicate Trimmed(s: string) {
    s == [] || (!IsSpace(s[0]) && !IsSpace(s[|s| - 1]))
  }

  /** `s.lstrip()`: the suffix left after dropping leading whitespace. */
  function TrimLeft(s: string): (r: string)
    ensures |r| <= |s| && r == s[|s| - |r|..]
    ensures r != [] ==> !IsSpace(r[0])
  {
    if s != [] && IsSpace(s[0]) then TrimLeft(s[1..]) else s
  }

  /** Every character `lstrip` drops is whitespace. */
  lemma {:induction false} TrimLeftSpaces(s: string)
    ensures forall i :: 0 <= i < |s| - |TrimLeft(s)| ==> IsSpace(s[i])
  {
    if s != [] && IsSpace(s[0]) {
      TrimLeftSpaces(s[1..]);
      forall i | 1 <= i < |s| - |TrimLeft(s)| ensures IsSpace(s[i]) {
        assert s[i] == s[1..][i - 1];
      }
    }
  }

  /** `s.rstrip()`: the prefix left after dropping trailing whitespace. */
  function TrimRight(s: string): (r: string)
    ensures |r| <= |s| && r == s[..|r|]
    ensures r != [] ==> !IsSpace(r[|r| - 1])
  {
    if s != [] && IsSpace(s[|s| - 1]) then TrimRight(s[..|s| - 1]) else s
  }

  /** Every character `rstrip` drops is whitespace. */
  lemma {:induction false} TrimRightSpaces(s: string)
    ensures forall i :: |TrimRight(s)| <= i < |s| ==> IsSpace(s[i])
  {
    if s != [] && IsSpace(s[|s| - 1]) {
      TrimRightSpaces(s[..|s| - 1]);
    }
  }

  /** `s.strip()`: `s` without its leading and its trailing whitespace. */
  function Strip(s: string): (r: string)
    ensures Trimmed(r) && |r| <= |s|
  {
    TrimRight(TrimLeft(s))
  }

  /** What `strip` keeps is the contiguous middle of `s`: everything before
      it and everything after it is whitespace. */
  lemma {:induction false} StripSlice(s: string)
    ensures var r, k := Strip(s), |s| - |TrimLeft(s)|;
      && k + |r| <= |s|
      && r == s[k..k + |r|]
      && (forall i :: 0 <= i < k ==> IsSpace(s[i]))
      && (forall i :: k + |r| <= i < |s| ==> IsSpace(s[i]))
  {
    assert Strip(s) == TrimRight(TrimLeft(s));
    StripMiddle(s);
    StripTail(s);
    TrimLeftSpaces(s);
  }

  lemma {:induction false} StripMiddle(s: string)
    ensures var l := TrimLeft(s); var r := TrimRight(l);
      |s| - |l| + |r| <= |s| && r == s[|s| - |l|..|s| - |l| + |r|]
  {
    SliceOfSuffix(s, TrimLeft(s), TrimRight(TrimLeft(s)));
  }

  /** A prefix of a suffix is a slice. */
  lemma {:induction false} SliceOfSuffix(s: string, l: string, r: string)
    requires |l| <= |s| && l == s[|s| - |l|..]
    requires |r| <= |l| && r == l[..|r|]
    ensures |s| - |l| + |r| <= |s| && r == s[|s| - |l|..|s| - |l| + |r|]
  {
  }

  lemma {:induction false} StripTail(s: string)
    ensures var l := TrimLeft(s);
      forall i :: |s| - |l| + |TrimRight(l)| <= i < |s| ==> IsSpace(s[i])
  {
    var l := TrimLeft(s);
    TrimRightSpaces(l);
    SpacesOfSuffix(s, l, TrimRight(l));
  }

  /** Whitespace at the end of a suffix is whitespace at the end of the whole. */
  lemma {:induction false} SpacesOfSuffix(s: string, l: string, r: string)
    requires |l| <= |s| && l == s[|s| - |l|..]
    requires |r| <= |l| && forall j :: |r| <= j < |l| ==> IsSpace(l[j])
    ensures forall i :: |s| - |l| + |r| <= i < |s| ==> IsSpace(s[i])
  {
    var k := |s| - |l|;
    forall i | k + |r| <= i < |s| ensures IsSpace(s[i]) {
      assert s[i] == l[i - k];
    }
  }

  /** `s.strip()` is empty exactly when `s` is all whitespace. */
  lemma {:induction false} StripEmpty(s: string)
    ensures Strip(s) == [] <==> forall i :: 0 <= i < |s| ==> IsSpace(s[i])
  {
    var k := |s| - |TrimLeft(s)|;
    StripSlice(s);
    if Strip(s) == [] {
      forall i | 0 <= i < |s| ensures IsSpace(s[i]) {
        if i >= k {
          assert k + |Strip(s)| <= i;
        }
      }
    } else {
      assert !IsSpace(s[k]);
    }
  }

  /** A string without surrounding whitespace is its own strip. */
  lemma {:induction false} StripTrimmed(s: string)
    requires Trimmed(s)
    ensures Strip(s) == s
  {
    if s != [] {
      assert TrimLeft(s) == s;
    }
  }

  /** One leading space before text that does not start with one is dropped
      by `lstrip`; likewise one trailing space by `rstrip`. */
  lemma {:induction false} TrimOneLeft(c: char, s: string)
    requires IsSpace(c) && (s == [] || !IsSpace(s[0]))
    ensures TrimLeft([c] + s) == s
  {
    assert ([c] + s)[1..] == s;
  }

  lemma {:induction false} TrimOneRight(s: string, c: char)
    requires IsSpace(c) && (s == [] || !IsSpace(s[|s| - 1]))
    ensures TrimRight(s + [c]) == s
  {
    assert (s + [c])[..|s|] == s;
  }

  /** Stripping twice is stripping once. */
  lemma {:induction false} StripIdempotent(s: string)
    ensures Strip(Strip(s)) == Strip(s)
  {
    StripTrimmed(Strip(s));
  }

  /** `s.replace(c, '')`: `s` with every occurrence of `c` deleted, the
      other characters kept in order. */
  function Without(s: string, c: char): (r: string)
    ensures c !in r
    ensures |r| <= |s|
  {
    if s == [] then [] else (if s[0] == c then [] else [s[0]]) + Without(s[1..], c)
  }

  /** Deleting a character that does not occur changes nothing. */
  lemma {:induction false} WithoutAbsent(s: string, c: char)
    requires c !in s
    ensures Without(s, c) == s
  {
    if s != [] {
      assert s == [s[0]] + s[1..];
      WithoutAbsent(s[1..], c);
    }
  }

  /** Deleting a character distributes over concatenation. */
  lemma {:induction false} WithoutAppend(s: string, t: string, c: char)
    ensures Without(s + t, c) == Without(s, c) + Without(t, c)
  {
    if s == [] {
      assert s + t == t;
    } else {
      var head := if s[0] == c then [] else [s[0]];
      assert (s + t)[0] == s[0];
      assert (s + t)[1..] == s[1..] + t;
      calc {
        Without(s + t, c);
        head + Without(s[1..] + t, c);
        { WithoutAppend(s[1..], t, c); }
        head + (Without(s[1..], c) + Without(t, c));
        (head + Without(s[1..], c)) + Without(t, c);
      }
    }
  }

  predicate IsDigit(c: char) {
    '0' <= c <= '9'
  }

  function DigitValue(c: char): (d: nat)
    requires IsDigit(c)
    ensures d < 10
  {
    c as int - '0' as int
  }

  function DigitChar(d: nat): (c: char)
    requires d < 10
    ensures IsDigit(c) && DigitValue(c) == d
  {
    ('0' as int + d) as char
  }

  /** Every character is a digit or an underscore. */
  predicate DigitRun(t: string) {
    forall i :: 0 <= i < |t| ==> IsDigit(t[i]) || t[i] == '_'
  }

  lemma {:induction false} DigitRunAppend(x: string, y: string)
    requires DigitRun(x) && DigitRun(y)
    ensures DigitRun(x + y)
  {
    assert forall i :: 0 <= i < |x + y| ==> (x + y)[i] == if i < |x| then x[i] else y[i - |x|];
  }

  lemma {:induction false} DigitRunPrefix(x: string, n: int)
    requires DigitRun(x) && 0 <= n <= |x|
    ensures DigitRun(x[..n])
  {
  }

  /** The value of a run of decimal digits in which single underscores may
      separate digits (`int('1_000') == 1000`); underscores contribute nothing. */
  function GroupedValue(t: string): nat
    requires DigitRun(t)
  {
    if t == [] then 0
    else if t[|t| - 1] == '_' then GroupedValue(t[..|t| - 1])
    else GroupedValue(t[..|t| - 1]) * 10 + DigitValue(t[|t| - 1])
  }

  /** The unsigned part of a base-10 literal that `int()` accepts: digits,
      with single underscores only between two digits. */
  predicate DigitGroups(t: string) {
    && t != []
    && IsDigit(t[0])
    && IsDigit(t[|t| - 1])
    && DigitRun(t)
    && (forall i :: 0 <= i < |t| - 1 && t[i] == '_' ==> t[i + 1] != '_')
  }

  /** `int(s)` for text that has already been stripped: an optional sign
      followed by digit groups; anything else is a `ValueError`, here `None`. */
  function ParseInt(s: string): (r: Option<int>)
    ensures r.Some? <==> DigitGroups(s) || (s != [] && (s[0] == '+' || s[0] == '-') && DigitGroups(s[1..]))
    ensures r.Some? ==> s != [] && IsDigit(s[|s| - 1])
    ensures r.Some? ==> forall i :: 0 < i < |s| ==> IsDigit(s[i]) || s[i] == '_'
    ensures r.Some? && r.value < 0 ==> s[0] == '-'
  {
    if s != [] && (s[0] == '+' || s[0] == '-') then
      var t := s[1..];
      if DigitGroups(t) then
        var v: int := GroupedValue(t);
        Some(if s[0] == '-' then -v else v)
      else None
    else if DigitGroups(s) then Some(GroupedValue(s))
    else None
  }

  /** A leading zero does not change the value (`int('085') == 85`). */
  lemma {:induction false} ParseLeadingZero(t: string)
    requires DigitGroups(t)
    ensures ParseInt("0" + t) == ParseInt(t)
  {
    assert ("0" + t)[0] == '0';
    assert forall i :: 0 < i < |"0" + t| ==> ("0" + t)[i] == t[i - 1];
    GroupedLeadingZero(t);
  }

  lemma {:induction false} GroupedLeadingZero(t: string)
    requires DigitRun(t)
    ensures DigitRun("0" + t) && GroupedValue("0" + t) == GroupedValue(t)
  {
    DigitRunAppend("0", t);
    if t != [] {
      var init := t[..|t| - 1];
      DigitRunPrefix(t, |t| - 1);
      assert ("0" + t)[..|t|] == "0" + init;
      GroupedLeadingZero(init);
    }
  }

  /** An underscore between two digit groups does not change the value
      (`int('8_5') == int('85')`). */
  lemma {:induction false} ParseUnderscore(a: string, b: string)
    requires DigitGroups(a) && DigitGroups(b)
    ensures ParseInt(a + "_" + b) == ParseInt(a + b)
  {
    GroupedUnderscore(a, b);
    UnderscoreGroups(a, b);
    JoinedGroups(a, b);
  }

  lemma {:induction false} UnderscoreGroups(a: string, b: string)
    requires DigitGroups(a) && DigitGroups(b) && DigitRun(a + "_" + b)
    ensures DigitGroups(a + "_" + b)
  {
    var u := a + "_" + b;
    assert u[0] == a[0] && u[|u| - 1] == b[|b| - 1];
    forall i | 0 <= i < |u| - 1 && u[i] == '_' ensures u[i + 1] != '_' {
      if i < |a| - 1 {
        assert u[i] == a[i] && u[i + 1] == a[i + 1];
      } else if i == |a| {
        assert u[i + 1] == b[0];
      } else {
        assert u[i] == b[i - |a| - 1] && u[i + 1] == b[i - |a|];
      }
    }
  }

  lemma {:induction false} JoinedGroups(a: string, b: string)
    requires DigitGroups(a) && DigitGroups(b) && DigitRun(a + b)
    ensures DigitGroups(a + b)
  {
    var j := a + b;
    assert j[0] == a[0] && j[|j| - 1] == b[|b| - 1];
    forall i | 0 <= i < |j| - 1 && j[i] == '_' ensures j[i + 1] != '_' {
      if i < |a| - 1 {
        assert j[i] == a[i] && j[i + 1] == a[i + 1];
      } else if i >= |a| {
        assert j[i] == b[i - |a|] && j[i + 1] == b[i + 1 - |a|];
      }
    }
  }

  lemma {:induction false} GroupedUnderscore(a: string, b: string)
    requires DigitRun(a) && DigitRun(b)
    ensures DigitRun(a + "_" + b) && DigitRun(a + b)
    ensures GroupedValue(a + "_" + b) == GroupedValue(a + b)
  {
    DigitRunAppend(a, "_");
    DigitRunAppend(a + "_", b);
    DigitRunAppend(a, b);
    if b == [] {
      assert (a + "_" + b)[..|a|] == a && a + b == a;
    } else {
      var init := b[..|b| - 1];
      DigitRunPrefix(b, |b| - 1);
      GroupedUnderscore(a, init);
      GroupedUnderscoreStep(a, b);
    }
  }

  lemma {:induction false} GroupedUnderscoreStep(a: string, b: string)
    requires DigitRun(a) && DigitRun(b) && b != []
    requires DigitRun(a + "_" + b) && DigitRun(a + b)
    requires DigitRun(a + "_" + b[..|b| - 1]) && DigitRun(a + b[..|b| - 1])
    requires GroupedValue(a + "_" + b[..|b| - 1]) == GroupedValue(a + b[..|b| - 1])
    ensures GroupedValue(a + "_" + b) == GroupedValue(a + b)
  {
    var u, j := a + "_" + b, a + b;
    assert u[..|u| - 1] == a + "_" + b[..|b| - 1] && u[|u| - 1] == b[|b| - 1];
    assert j[..|j| - 1] == a + b[..|b| - 1] && j[|j| - 1] == b[|b| - 1];
  }

  /** A sign in front of digit groups: `+` keeps the value, `-` negates it. */
  lemma {:induction false} ParseSigned(t: string)
    requires DigitGroups(t)
    ensures ParseInt("+" + t) == ParseInt(t)
    ensures ParseInt("-" + t) == Some(-ParseInt(t).value)
  {
    assert ("+" + t)[1..] == t;
    assert ("-" + t)[1..] == t;
  }

  /** `str(n)` for a natural number: its digits, most significant first,
      without leading zeros. */
  function DigitsOf(n: nat): (r: string)
    ensures r != []
    ensures forall i :: 0 <= i < |r| ==> IsDigit(r[i])
    ensures |r| > 1 ==> r[0] != '0'
  {
    if n < 10 then [DigitChar(n)] else DigitsOf(n / 10) + [DigitChar(n % 10)]
  }

  /** `str(n)` for an integer. */
  function Decimal(n: int): (r: string)
    ensures r != [] && IsDigit(r[|r| - 1])
    ensures IsDigit(r[0]) || (n < 0 && r[0] == '-')
    ensures forall i :: 0 < i < |r| ==> IsDigit(r[i])
  {
    if n < 0 then "-" + DigitsOf(-n) else DigitsOf(n)
  }

  lemma {:induction false} DigitsOfValue(n: nat)
    ensures GroupedValue(DigitsOf(n)) == n
  {
    if n >= 10 {
      DigitsOfValue(n / 10);
      var r := DigitsOf(n);
      assert r[..|r| - 1] == DigitsOf(n / 10);
    }
  }

  /** `int(str(n)) == n`: the integer parser reads back what `str` prints. */
  lemma {:induction false} ParseDecimal(n: int)
    ensures ParseInt(Decimal(n)) == Some(n)
  {
    var d := DigitsOf(if n < 0 then -n else n);
    DigitsOfValue(if n < 0 then -n else n);
    assert DigitGroups(d);
    if n < 0 {
      assert Decimal(n)[1..] == d;
    }
  }

  /** The printed form of an integer has no whitespace at either end and
      contains no `%`. */
  lemma {:induction false} DecimalPlain(n: int)
    ensures Trimmed(Decimal(n))
    ensures '%' !in Decimal(n)
  {
    var r := Decimal(n);
    assert forall i :: 0 <= i < |r| ==> r[i] != '%';
  }
}
