/** The strict `MM:SS` parser and the formatter of the legacy scoreboard
    controller. These two are the time vocabulary of the whole engine: every
    clock and penalty field is read with `ParseMmss` and written with
    `FormatMmss`. */
module ScoreboardTime {
  import opened Wrappers
  import opened PyText

  /** `_parse_time_to_seconds`: exactly two colon-separated integer parts,
      minutes `>= 0` and seconds in `0..59`; anything else is `None`. */
  function ParseMmss(value: string): (r: Option<nat>)
  {
    if |value| == 0 then None
    else
      var parts := Split(Strip(value), ':');
      if |parts| != 2 then None
      else match (ParseInt(parts[0]), ParseInt(parts[1]))
        case (Some(mm), Some(ss)) =>
          if ss < 0 || ss > 59 || mm < 0 then None
          else Some(mm * 60 + ss)
        case _ => None
  }

  /** What the parser accepts, and how the result decomposes back into the
      two parts: the minutes are `r / 60` and the seconds `r % 60`. */
  lemma ParseMmssSpec(value: string)
    ensures ParseMmss(value).Some? <==>
      (var parts := Split(Strip(value), ':');
       && |value| > 0
       && |parts| == 2
       && ParseInt(parts[0]).Some? && ParseInt(parts[0]).value >= 0
       && ParseInt(parts[1]).Some? && 0 <= ParseInt(parts[1]).value <= 59)
    ensures ParseMmss(value).Some? ==>
      (var parts := Split(Strip(value), ':');
       && ParseMmss(value).value / 60 == ParseInt(parts[0]).value
       && ParseMmss(value).value % 60 == ParseInt(parts[1]).value)
  {
  }

  /** `_format_mmss`: negative input is clamped to zero, then minutes and
      seconds are each written with at least two digits. The text always
      parses back to the clamped number of seconds. */
  function FormatMmss(secs: int): (r: string)
    ensures ParseMmss(r) == Some(if secs < 0 then 0 else secs)
    ensures |r| >= 5 && r[|r| - 3] == ':' && NoSpace(r)
    ensures 0 <= secs < 6000 ==> |r| == 5
    ensures secs <= 0 ==> r == "00:00"
  {
    var n: nat := if secs < 0 then 0 else secs;
    FormatRoundTrip(n);
    Mmss(n)
  }

  function Mmss(n: nat): string {
    Pad2(n / 60) + ":" + Pad2(n % 60)
  }

  lemma FormatRoundTrip(n: nat)
    ensures NoSpace(Mmss(n)) && ParseMmss(Mmss(n)) == Some(n)
  {
    var m := n / 60;
    var s := n % 60;
    assert m * 60 + s == n;
    ParsePad2(m);
    ParsePad2(s);
    ParseJoined(Pad2(m), Pad2(s), m, s);
  }

  /** Two separator-free, space-free parts that read as valid minutes and
      seconds make a time the parser accepts. */
  lemma ParseJoined(mm: string, ss: string, m: int, s: int)
    requires AllDigits(mm) && AllDigits(ss) && NoSpace(mm) && NoSpace(ss)
    requires ParseInt(mm) == Some(m) && ParseInt(ss) == Some(s)
    requires m >= 0 && 0 <= s <= 59
    ensures NoSpace(mm + ":" + ss)
    ensures ParseMmss(mm + ":" + ss) == Some(m * 60 + s)
  {
    var r := mm + ":" + ss;
    assert ':' !in mm && ':' !in ss by {
      assert !IsDigit(':');
    }
    assert NoSpace(r) by {
      forall i | 0 <= i < |r| ensures !IsSpace(r[i]) {
        if i < |mm| { assert r[i] == mm[i]; }
        else if i > |mm| { assert r[i] == ss[i - |mm| - 1]; }
      }
    }
    StripNoSpace(r);
    assert r == mm + [':'] + ss;
    SplitTwo(mm, ss, ':');
  }

  /** Reading a time and writing it back normalises it: the formatted text
      reads as the same number of seconds, and formatting is injective on
      the values the parser produces. */
  lemma NormaliseIsStable(s: string)
    requires ParseMmss(s).Some?
    ensures ParseMmss(FormatMmss(ParseMmss(s).value)) == ParseMmss(s)
  {
  }

  lemma FormatInjective(a: nat, b: nat)
    requires FormatMmss(a) == FormatMmss(b)
    ensures a == b
  {
    assert ParseMmss(FormatMmss(a)) == Some(a);
  }

  /** Text without a colon is never a time: it is one part at most. */
  lemma ParseMmssNeedsColon(value: string)
    requires ':' !in value
    ensures ParseMmss(value) == None
  {
    StripKeepsChars(value);
  }

  /** `str(m) + ":" + str(s)` for any two integers is a time exactly when the
      minutes are non-negative and the seconds lie in `0..59`: sixty seconds
      and negative minutes are refused. */
  lemma ParseMmssOfIntegers(m: int, s: int)
    ensures ParseMmss(IntToString(m) + ":" + IntToString(s)) ==
      if m >= 0 && 0 <= s <= 59 then Some(m * 60 + s) else None
  {
    ParseIntToString(m);
    ParseIntToString(s);
    IntTextNoColon(m);
    IntTextNoColon(s);
    ParseTwoParts(IntToString(m), IntToString(s));
  }

  lemma IntTextNoColon(i: int)
    ensures ':' !in IntToString(i)
  {
    var d := NatToString(if i < 0 then -i else i);
    assert ':' !in d by {
      assert !IsDigit(':');
      assert forall k :: 0 <= k < |d| ==> IsDigit(d[k]);
    }
    if i < 0 {
      assert IntToString(i) == "-" + d;
    }
  }

  /** Each part goes through Python's `int()`, so an explicit `+` on the
      minutes is tolerated: `"+" + str(m) + ":" + str(s)` reads as the
      unsigned text does. */
  lemma ParseMmssPlusSign(m: nat, s: nat)
    ensures ParseMmss("+" + NatToString(m) + ":" + NatToString(s)) ==
      if s <= 59 then Some(m * 60 + s) else None
  {
    var a := "+" + NatToString(m);
    var b := NatToString(s);
    PlusText(m);
    ParseNatToString(s);
    IntTextNoColon(s);
    ParseTwoValues(a, b, m, s);
  }

  /** `ParseTwoParts` with the two integers already known. */
  lemma ParseTwoValues(a: string, b: string, m: int, s: int)
    requires ':' !in a && ':' !in b && |a| > 0
    requires NoSpace(a) && NoSpace(b)
    requires ParseInt(a) == Some(m) && ParseInt(b) == Some(s)
    ensures ParseMmss(a + ":" + b) == if m >= 0 && 0 <= s <= 59 then Some(m * 60 + s) else None
  {
    ParseTwoParts(a, b);
  }

  /** `"+" + str(m)` is a colon-free, space-free text that `int()` reads as `m`. */
  lemma PlusText(m: nat)
    ensures var a := "+" + NatToString(m);
      NoSpace(a) && ':' !in a && ParseInt(a) == Some(m)
  {
    var d := NatToString(m);
    var a := "+" + d;
    assert forall k :: 1 <= k < |a| ==> a[k] == d[k - 1];
    assert NoSpace(a) by {
      assert !IsSpace('+');
    }
    assert ':' !in a by {
      IntTextNoColon(m);
    }
    StripNoSpace(a);
    assert a[1..] == d;
  }

  /** Three colon-free pieces joined by colons split into three parts,
      which the parser refuses. */
  lemma RejectsThreePieces(a: string, b: string, c: string)
    requires ':' !in a && ':' !in b && ':' !in c
    requires NoSpace(a + [':'] + (b + [':'] + c))
    ensures ParseMmss(a + [':'] + (b + [':'] + c)) == None
  {
    var v := a + [':'] + (b + [':'] + c);
    StripNoSpace(v);
    SplitTwo(b, c, ':');
    SplitCons(a, b + [':'] + c, ':');
  }

  /** A space-free text with one colon reads as the two parts' integers. */
  lemma ParseTwoParts(a: string, b: string)
    requires ':' !in a && ':' !in b && |a| > 0
    requires NoSpace(a) && NoSpace(b)
    ensures ParseMmss(a + ":" + b) ==
      if ParseInt(a).Some? && ParseInt(b).Some?
         && ParseInt(a).value >= 0 && 0 <= ParseInt(b).value <= 59
      then Some(ParseInt(a).value * 60 + ParseInt(b).value)
      else None
  {
    var r := a + ":" + b;
    assert NoSpace(r) by {
      forall i | 0 <= i < |r| ensures !IsSpace(r[i]) {
        if i < |a| { assert r[i] == a[i]; }
        else if i > |a| { assert r[i] == b[i - |a| - 1]; }
      }
    }
    StripNoSpace(r);
    assert r == a + [':'] + b;
    SplitTwo(a, b, ':');
  }

  /** The text written for a cleared field reads as zero. */
  lemma ZeroText()
    ensures ParseMmss("00:00") == Some(0)
  {
    var z := FormatMmss(0);
    assert z == "00:00";
  }
}
