/** The handful of Python `str` operations the scoreboard code leans on:
    `strip()`, `split(":")`, `int()`, `str()` of an integer, the `02d` format,
    `lower()`/`upper()`, `isdigit()`, `endswith()`, `replace()` and `in`.
    Each is written out here so that its edge cases are explicit. */
module PyText {

  // ---------------------------------------------------------------
  // Whitespace and strip()
  // ---------------------------------------------------------------

  /** The characters Python's `str.isspace()` accepts, which is the set
      `strip()` with no argument removes and `int()` tolerates around a
      number. */
  predicate IsSpace(c: char) {
    var n := c as int;
    || (9 <= n <= 13) || (28 <= n <= 32) || n == 0x85 || n == 0xA0
    || n == 0x1680 || (0x2000 <= n <= 0x200A) || n == 0x2028 || n == 0x2029
    || n == 0x202F || n == 0x205F || n == 0x3000
  }

  predicate NoSpace(s: string) {
    forall i :: 0 <= i < |s| ==> !IsSpace(s[i])
  }

  function StripLeft(s: string): (r: string)
    ensures |r| <= |s|
  {
    if |s| > 0 && IsSpace(s[0]) then StripLeft(s[1..]) else s
  }

  function StripRight(s: string): (r: string)
    ensures |r| <= |s|
  {
    if |s| > 0 && IsSpace(s[|s| - 1]) then StripRight(s[..|s| - 1]) else s
  }

  /** Python `s.strip()`. */
  function Strip(s: string): (r: string)
    ensures |r| <= |s|
  {
    StripRight(StripLeft(s))
  }

  /** `strip()` only removes characters: whatever it keeps was in the input. */
  lemma {:induction false} StripKeepsChars(s: string)
    ensures forall c :: c in Strip(s) ==> c in s
  {
    StripLeftKeepsChars(s);
    StripRightKeepsChars(StripLeft(s));
  }

  lemma {:induction false} StripLeftKeepsChars(s: string)
    ensures forall c :: c in StripLeft(s) ==> c in s
  {
    if |s| > 0 && IsSpace(s[0]) {
      StripLeftKeepsChars(s[1..]);
    }
  }

  lemma {:induction false} StripRightKeepsChars(s: string)
    ensures forall c :: c in StripRight(s) ==> c in s
  {
    if |s| > 0 && IsSpace(s[|s| - 1]) {
      StripRightKeepsChars(s[..|s| - 1]);
    }
  }

  /** A string without any whitespace is left alone by `strip()`. */
  lemma StripNoSpace(s: string)
    requires NoSpace(s)
    ensures Strip(s) == s
  {
    if |s| > 0 {
      assert !IsSpace(s[0]);
      assert !IsSpace(s[|s| - 1]);
    }
  }

  lemma {:induction false} StripLeftShape(s: string)
    ensures |StripLeft(s)| > 0 ==> !IsSpace(StripLeft(s)[0])
  {
    if |s| > 0 && IsSpace(s[0]) {
      StripLeftShape(s[1..]);
    }
  }

  lemma {:induction false} StripRightShape(s: string)
    ensures StripRight(s) == s[..|StripRight(s)|]
    ensures |StripRight(s)| > 0 ==> !IsSpace(StripRight(s)[|StripRight(s)| - 1])
  {
    if |s| > 0 && IsSpace(s[|s| - 1]) {
      StripRightShape(s[..|s| - 1]);
      assert s[..|s| - 1][..|StripRight(s)|] == s[..|StripRight(s)|];
    }
  }

  /** `strip()` is idempotent: a stripped text has nothing left to strip. */
  lemma StripIdempotent(s: string)
    ensures Strip(Strip(s)) == Strip(s)
  {
    var l := StripLeft(s);
    var r := StripRight(l);
    StripLeftShape(s);
    StripRightShape(l);
    if |r| > 0 {
      assert r[0] == l[0];
      assert StripLeft(r) == r;
      assert StripRight(r) == r;
    }
  }

  // ---------------------------------------------------------------
  // split(sep)
  // ---------------------------------------------------------------

  /** Python `s.split(sep)` for a one-character separator: the pieces between
      separators, so `""` splits to `[""]` and `"a::b"` to `["a", "", "b"]`. */
  function Split(s: string, sep: char): (r: seq<string>)
    ensures |r| >= 1
    ensures sep !in s ==> r == [s]
    ensures forall i :: 0 <= i < |r| ==> sep !in r[i]
  {
    if |s| == 0 then [""]
    else
      var rest := Split(s[1..], sep);
      if s[0] == sep then [""] + rest
      else
        assert s == [s[0]] + s[1..];
        [[s[0]] + rest[0]] + rest[1..]
  }

  /** A separator-free piece followed by the separator splits off as the
      first part. */
  lemma {:induction false} SplitCons(a: string, rest: string, sep: char)
    requires sep !in a
    ensures Split(a + [sep] + rest, sep) == [a] + Split(rest, sep)
  {
    if |a| == 0 {
      assert a + [sep] + rest == [sep] + rest;
      assert ([sep] + rest)[1..] == rest;
    } else {
      assert (a + [sep] + rest)[1..] == a[1..] + [sep] + rest;
      SplitCons(a[1..], rest, sep);
      assert [a[0]] + a[1..] == a;
    }
  }

  /** Joining two separator-free pieces with the separator splits back into
      exactly those two pieces. */
  lemma SplitTwo(a: string, b: string, sep: char)
    requires sep !in a && sep !in b
    ensures Split(a + [sep] + b, sep) == [a, b]
  {
    SplitCons(a, b, sep);
  }

  /** `sep.join(s.split(sep)) == s`: splitting loses nothing. */
  lemma {:induction false} SplitJoinRoundTrip(s: string, sep: char)
    ensures Join(Split(s, sep), [sep]) == s
  {
    if |s| > 0 {
      var rest := Split(s[1..], sep);
      SplitJoinRoundTrip(s[1..], sep);
      if s[0] == sep {
        assert Split(s, sep) == [""] + rest;
        assert ([""] + rest)[1..] == rest;
        assert s == [sep] + s[1..];
      } else {
        var first := [s[0]] + rest[0];
        assert Split(s, sep) == [first] + rest[1..];
        if |rest| == 1 {
          assert Join([first], [sep]) == first;
        } else {
          assert ([first] + rest[1..])[1..] == rest[1..];
          assert Join(rest, [sep]) == rest[0] + [sep] + Join(rest[1..], [sep]);
        }
        assert s == [s[0]] + s[1..];
      }
    }
  }

  // ---------------------------------------------------------------
  // Decimal digits, int() and str()
  // ---------------------------------------------------------------

  predicate IsDigit(c: char) { '0' <= c <= '9' }

  predicate AllDigits(s: string) {
    forall i :: 0 <= i < |s| ==> IsDigit(s[i])
  }

  /** Python `s.isdigit()` restricted to ASCII digits: non-empty and all digits. */
  predicate IsDigitString(s: string) {
    |s| > 0 && AllDigits(s)
  }

  function DigitValue(c: char): nat
    requires IsDigit(c)
  {
    (c as int - '0' as int) as nat
  }

  function DigitChar(d: nat): (c: char)
    requires d < 10
    ensures IsDigit(c) && DigitValue(c) == d
  {
    ('0' as int + d) as char
  }

  /** The value of a string of decimal digits, most significant first. */
  function DigitsValue(s: string): nat
    requires AllDigits(s)
  {
    if |s| == 0 then 0
    else DigitsValue(s[..|s| - 1]) * 10 + DigitValue(s[|s| - 1])
  }

  /** A leading `0` does not change the value of a digit string. */
  lemma {:induction false} LeadingZero(s: string)
    requires AllDigits(s)
    ensures AllDigits("0" + s) && DigitsValue("0" + s) == DigitsValue(s)
  {
    if |s| > 0 {
      var t := "0" + s;
      assert t[..|t| - 1] == "0" + s[..|s| - 1];
      LeadingZero(s[..|s| - 1]);
    }
  }

  /** Digits are not whitespace, so `strip()` leaves a digit string alone. */
  lemma DigitsNoSpace(s: string)
    requires AllDigits(s)
    ensures NoSpace(s) && Strip(s) == s
  {
    assert NoSpace(s) by {
      forall i | 0 <= i < |s| ensures !IsSpace(s[i]) {
        assert IsDigit(s[i]);
      }
    }
    StripNoSpace(s);
  }

  /** Python `str(n)` for a non-negative integer. */
  function NatToString(n: nat): (r: string)
    ensures IsDigitString(r) && NoSpace(r)
    ensures DigitsValue(r) == n
    ensures n < 10 ==> |r| == 1
    ensures n >= 10 ==> |r| >= 2
  {
    if n < 10 then [DigitChar(n)]
    else
      var r := NatToString(n / 10) + [DigitChar(n % 10)];
      assert r[..|r| - 1] == NatToString(n / 10);
      r
  }

  /** Python `str(i)` for any integer. */
  function IntToString(i: int): (r: string)
    ensures |r| > 0 && NoSpace(r)
  {
    if i < 0 then "-" + NatToString(-i) else NatToString(i)
  }

  /** Python `int(s)` in base 10: optional surrounding whitespace, an optional
      sign, then one or more digits; anything else raises `ValueError`, which
      is `None` here. */
  function ParseInt(s: string): (r: Option<int>)
  {
    ParseSignedDigits(Strip(s))
  }

  /** `int()` on text that has already been stripped. */
  function ParseSignedDigits(t: string): Option<int> {
    if |t| == 0 then None
    else if t[0] == '-' || t[0] == '+' then
      var body := t[1..];
      if IsDigitString(body) then
        Some(if t[0] == '-' then -(DigitsValue(body) as int) else DigitsValue(body) as int)
      else None
    else if IsDigitString(t) then Some(DigitsValue(t) as int)
    else None
  }

  /** `int()` accepts exactly an optionally signed run of digits once the
      surrounding whitespace is stripped, and never yields a value for text
      without a digit. */
  lemma ParseIntShape(s: string)
    ensures ParseInt(s).Some? <==>
      (var t := Strip(s);
       IsDigitString(t) || (|t| > 1 && (t[0] == '-' || t[0] == '+') && IsDigitString(t[1..])))
  {
  }

  /** `int(str(n)) == n` for every non-negative `n`. */
  lemma ParseNatToString(n: nat)
    ensures ParseInt(NatToString(n)) == Some(n)
  {
    StripNoSpace(NatToString(n));
  }

  /** `int(str(i)) == i` for every integer `i`. */
  lemma ParseIntToString(i: int)
    ensures ParseInt(IntToString(i)) == Some(i)
  {
    var r := IntToString(i);
    StripNoSpace(r);
    if i < 0 {
      assert r[1..] == NatToString(-i);
    }
  }

  /** Python `f"{n:02d}"` for `n >= 0`: at least two digits, zero-padded. */
  function Pad2(n: nat): (r: string)
    ensures |r| >= 2 && IsDigitString(r) && NoSpace(r)
    ensures DigitsValue(r) == n
    ensures n < 100 ==> |r| == 2
  {
    if n < 10 then
      LeadingZero(NatToString(n));
      "0" + NatToString(n)
    else NatToString(n)
  }

  lemma ParsePad2(n: nat)
    ensures ParseInt(Pad2(n)) == Some(n)
  {
    StripNoSpace(Pad2(n));
  }

  // ---------------------------------------------------------------
  // Case, affixes, replace, substring
  // ---------------------------------------------------------------

  /** Python `lower()` on ASCII letters; other characters are unchanged. */
  function Lower(s: string): (r: string)
    ensures |r| == |s|
    ensures forall i :: 0 <= i < |s| ==>
      r[i] == if 'A' <= s[i] <= 'Z' then (s[i] as int + 32) as char else s[i]
  {
    if |s| == 0 then "" else
      [if 'A' <= s[0] <= 'Z' then (s[0] as int + 32) as char else s[0]] + Lower(s[1..])
  }

  /** Python `upper()` on ASCII letters; other characters are unchanged. */
  function Upper(s: string): (r: string)
    ensures |r| == |s|
    ensures forall i :: 0 <= i < |s| ==>
      r[i] == if 'a' <= s[i] <= 'z' then (s[i] as int - 32) as char else s[i]
  {
    if |s| == 0 then "" else
      [if 'a' <= s[0] <= 'z' then (s[0] as int - 32) as char else s[0]] + Upper(s[1..])
  }

  /** Upper-casing twice is upper-casing once. */
  lemma UpperIdempotent(s: string)
    ensures Upper(Upper(s)) == Upper(s)
  {
    var u := Upper(s);
    assert forall i :: 0 <= i < |u| ==> !('a' <= u[i] <= 'z');
  }

  predicate EndsWith(s: string, suffix: string) {
    |suffix| <= |s| && s[|s| - |suffix|..] == suffix
  }

  predicate StartsWith(s: string, prefix: string) {
    |prefix| <= |s| && s[..|prefix|] == prefix
  }

  /** Python `s.replace(pat, rep)`: every non-overlapping occurrence, scanning
      left to right. */
  function ReplaceAll(s: string, pat: string, rep: string): (r: string)
    requires |pat| > 0
    decreases |s|
  {
    if |s| < |pat| then s
    else if s[..|pat|] == pat then rep + ReplaceAll(s[|pat|..], pat, rep)
    else [s[0]] + ReplaceAll(s[1..], pat, rep)
  }

  /** Python `sub in s` for strings. */
  predicate IsSubstring(sub: string, s: string)
    decreases |s|
  {
    StartsWith(s, sub) || (|s| > 0 && IsSubstring(sub, s[1..]))
  }

  /** Python `sep.join(parts)`. */
  function Join(parts: seq<string>, sep: string): string {
    if |parts| == 0 then ""
    else if |parts| == 1 then parts[0]
    else parts[0] + sep + Join(parts[1..], sep)
  }

  // ---------------------------------------------------------------
  // replace(c, "") and float()
  // ---------------------------------------------------------------

  /** Python `s.replace(c, "")` for a single character `c`. */
  function RemoveAll(s: string, c: char): (r: string)
    ensures c !in r
    ensures |r| <= |s|
    ensures c !in s ==> r == s
  {
    if |s| == 0 then ""
    else if s[0] == c then RemoveAll(s[1..], c)
    else
      assert s == [s[0]] + s[1..];
      [s[0]] + RemoveAll(s[1..], c)
  }

  lemma {:induction false} RemoveAllConcat(x: string, y: string, c: char)
    ensures RemoveAll(x + y, c) == RemoveAll(x, c) + RemoveAll(y, c)
  {
    if |x| > 0 {
      assert (x + y)[1..] == x[1..] + y;
      RemoveAllConcat(x[1..], y, c);
    } else {
      assert x + y == y;
    }
  }

  /** Removing characters from all-whitespace text leaves all-whitespace text. */
  lemma {:induction false} RemoveAllKeepsSpace(s: string, c: char)
    requires forall i :: 0 <= i < |s| ==> IsSpace(s[i])
    ensures forall i :: 0 <= i < |RemoveAll(s, c)| ==> IsSpace(RemoveAll(s, c)[i])
  {
    if |s| > 0 {
      RemoveAllKeepsSpace(s[1..], c);
    }
  }

  /** `RemoveAll` applied to every piece of a split. */
  function RemoveAllEach(ps: seq<string>, c: char): (r: seq<string>)
    ensures |r| == |ps|
    ensures forall i :: 0 <= i < |ps| ==> r[i] == RemoveAll(ps[i], c)
  {
    if |ps| == 0 then [] else [RemoveAll(ps[0], c)] + RemoveAllEach(ps[1..], c)
  }

  /** Deleting a character other than the separator commutes with `split`. */
  lemma {:induction false} SplitRemoveAll(s: string, sep: char, c: char)
    requires c != sep
    ensures Split(RemoveAll(s, c), sep) == RemoveAllEach(Split(s, sep), c)
  {
    if |s| > 0 {
      SplitRemoveAll(s[1..], sep, c);
      var rest := Split(s[1..], sep);
      var r := RemoveAll(s[1..], c);
      if s[0] == c {
        var first := [c] + rest[0];
        assert first[1..] == rest[0];
        assert RemoveAll(first, c) == RemoveAll(rest[0], c);
      } else if s[0] == sep {
        assert RemoveAll(s, c) == [sep] + r;
        assert ([sep] + r)[1..] == r;
      } else {
        assert RemoveAll(s, c) == [s[0]] + r;
        assert ([s[0]] + r)[1..] == r;
        var first := [s[0]] + rest[0];
        assert first[1..] == rest[0];
        assert RemoveAll(first, c) == [s[0]] + RemoveAll(rest[0], c);
      }
    }
  }

  lemma {:induction false} StripLeftRemoveSpaces(s: string)
    ensures StripLeft(RemoveAll(s, ' ')) == RemoveAll(StripLeft(s), ' ')
  {
    if |s| > 0 && IsSpace(s[0]) {
      StripLeftRemoveSpaces(s[1..]);
      if s[0] != ' ' {
        var r := [s[0]] + RemoveAll(s[1..], ' ');
        assert r[1..] == RemoveAll(s[1..], ' ');
      }
    } else if |s| > 0 {
      var r := [s[0]] + RemoveAll(s[1..], ' ');
      assert RemoveAll(s, ' ') == r;
    }
  }

  lemma {:induction false} StripRightRemoveSpaces(s: string)
    ensures StripRight(RemoveAll(s, ' ')) == RemoveAll(StripRight(s), ' ')
  {
    if |s| > 0 {
      var init := s[..|s| - 1];
      var last := s[|s| - 1];
      assert s == init + [last];
      RemoveAllConcat(init, [last], ' ');
      assert RemoveAll([last], ' ') == if last == ' ' then "" else [last];
      if IsSpace(last) {
        StripRightRemoveSpaces(init);
        if last != ' ' {
          var r := RemoveAll(init, ' ') + [last];
          assert r[..|r| - 1] == RemoveAll(init, ' ');
        } else {
          assert RemoveAll(s, ' ') == RemoveAll(init, ' ');
        }
      } else {
        var r := RemoveAll(init, ' ') + [last];
        assert RemoveAll(s, ' ') == r;
        assert StripRight(r) == r;
      }
    }
  }

  /** Deleting spaces and stripping commute. */
  lemma StripRemoveSpaces(s: string)
    ensures Strip(RemoveAll(s, ' ')) == RemoveAll(Strip(s), ' ')
  {
    StripLeftRemoveSpaces(s);
    StripRightRemoveSpaces(StripLeft(s));
  }

  /** `int(s.replace(" ", ""))` agrees with `int(s)` whenever the latter
      succeeds: the spaces `int()` tolerates are only around the number. */
  lemma ParseIntRemoveSpaces(p: string)
    requires ParseInt(p).Some?
    ensures ParseInt(RemoveAll(p, ' ')) == ParseInt(p)
  {
    var t := Strip(p);
    assert ' ' !in t by {
      forall i | 0 <= i < |t| ensures t[i] != ' ' {
        assert i == 0 || IsDigit(t[i]);
      }
    }
    StripRemoveSpaces(p);
    assert Strip(RemoveAll(p, ' ')) == t;
  }

  /** The exact value of a text of the forms this model admits for
      Python's `float()`: an optional sign, then digits with at most one
      decimal point and at least one digit. `whole` is the integer part and
      `fractionZero` says whether every digit after the point is `0`.
      `float()` itself rounds that value to the nearest IEEE double, and
      overflows to `inf` beyond the double range; the model keeps the
      exact value, so it agrees with Python only where that rounding leaves
      the integer part unchanged. */
  datatype Decimal = Decimal(negative: bool, whole: nat, fractionZero: bool) {
    /** `v < 0` for the float value `v`. */
    predicate IsNegative() { negative && (whole > 0 || !fractionZero) }
    /** Python `int(v)`: truncation toward zero. */
    function Truncate(): int { if negative then -(whole as int) else whole as int }
  }

  predicate AllZeros(s: string) {
    forall i :: 0 <= i < |s| ==> s[i] == '0'
  }

  function ParseDecimal(s: string): (r: Option<Decimal>)
    ensures r.Some? ==> '.' in Strip(s) || ParseInt(s).Some?
  {
    var t := Strip(s);
    if |t| == 0 then None
    else if t[0] == '-' || t[0] == '+' then DecimalBody(t[0] == '-', t[1..])
    else DecimalBody(false, t)
  }

  /** The unsigned part of a decimal: digits, or digits around one point. */
  function DecimalBody(negative: bool, body: string): (r: Option<Decimal>)
    ensures r.Some? ==> r.value.negative == negative
    ensures r.Some? ==> '.' in body || IsDigitString(body)
  {
    var p := Split(body, '.');
    if |p| == 1 then
      if IsDigitString(body) then Some(Decimal(negative, DigitsValue(body), true)) else None
    else if |p| == 2 && AllDigits(p[0]) && AllDigits(p[1]) && |p[0]| + |p[1]| > 0 then
      Some(Decimal(negative, DigitsValue(p[0]), AllZeros(p[1])))
    else None
  }

  /** `w.f` reads as the decimal with integer part `w`. */
  lemma DecimalBodyPoint(negative: bool, w: string, f: string)
    requires IsDigitString(w) && AllDigits(f)
    ensures DecimalBody(negative, w + "." + f) == Some(Decimal(negative, DigitsValue(w), AllZeros(f)))
  {
    assert '.' !in w && '.' !in f by { assert !IsDigit('.'); }
    assert w + "." + f == w + ['.'] + f;
    SplitTwo(w, f, '.');
  }

  /** A character other than the separator lands in one of the pieces. */
  lemma {:induction false} SplitKeepsChar(s: string, sep: char, c: char)
    requires c != sep && c in s
    ensures exists j :: 0 <= j < |Split(s, sep)| && c in Split(s, sep)[j]
    decreases |s|
  {
    var rest := Split(s[1..], sep);
    if s[0] == c {
      assert Split(s, sep)[0] == [s[0]] + rest[0];
      assert c in Split(s, sep)[0];
    } else {
      assert c in s[1..];
      SplitKeepsChar(s[1..], sep, c);
      var j :| 0 <= j < |rest| && c in rest[j];
      if s[0] == sep {
        assert Split(s, sep)[j + 1] == rest[j];
      } else if j == 0 {
        assert Split(s, sep)[0] == [s[0]] + rest[0];
        assert c in Split(s, sep)[0];
      } else {
        assert Split(s, sep)[j] == rest[j];
      }
    }
  }

  /** Neither `int()` nor `float()` reads a text with a colon. */
  lemma ColonNotANumber(s: string)
    requires ':' in Strip(s)
    ensures ParseInt(s) == None && ParseDecimal(s) == None
  {
    var t := Strip(s);
    var body := if t[0] == '-' || t[0] == '+' then t[1..] else t;
    assert ':' in body by {
      if t[0] == '-' || t[0] == '+' {
        var k :| 0 <= k < |t| && t[k] == ':';
        assert body[k - 1] == ':';
      }
    }
    assert !AllDigits(body) by {
      var k :| 0 <= k < |body| && body[k] == ':';
      assert !IsDigit(body[k]);
    }
    SplitKeepsChar(body, '.', ':');
    var j :| 0 <= j < |Split(body, '.')| && ':' in Split(body, '.')[j];
    var p := Split(body, '.');
    if |p| == 2 {
      var k :| 0 <= k < |p[j]| && p[j][k] == ':';
      assert !IsDigit(p[j][k]);
    }
  }

  import opened Wrappers
}
