/** The three other time parsers of the code base, side by side with the
    strict `MM:SS` parser of the scoreboard engine:
    - `ParseClock`: `_parse_time_to_seconds` of `legacy/clock_controller.py`;
    - `ParseGraphics`: the variant in `legacy/graphics_controller.py`;
    - `PenaltySeconds`: `_time_to_seconds` of `controllers/penalty_controller.py`.
    All three accept every text the strict parser accepts, with the same
    value, and disagree with it and with each other elsewhere. */
module TimeParsers {
  import opened Wrappers
  import opened PyText
  import opened ScoreboardTime

  /** How the `":" in t` block of the two legacy parsers ends: it returns a
      value, or it falls through to the parsing that follows it. */
  datatype Branch = Returns(value: Option<int>) | FallThrough

  /** The colon block shared by the clock and graphics parsers: spaces are
      deleted, and exactly two integer parts give `m * 60 + s` when neither
      is negative; seconds are not bounded by 59. Any other number of parts
      falls through. */
  function ColonBranch(t: string): (r: Branch)
    ensures ':' !in t ==> r == FallThrough
    ensures r.Returns? && r.value.Some? ==> r.value.value >= 0
  {
    if ':' !in t then FallThrough
    else
      var parts := Split(RemoveAll(t, ' '), ':');
      if |parts| != 2 then FallThrough
      else ColonValue(parts[0], parts[1])
  }

  /** The `try` around the two `int` calls of the colon block. */
  function ColonValue(a: string, b: string): (r: Branch)
    ensures r.Returns? && (r.value.Some? ==> r.value.value >= 0)
  {
    match (ParseInt(a), ParseInt(b))
    case (Some(m), Some(s)) => Returns(if m < 0 || s < 0 then None else Some(m * 60 + s))
    case _ => Returns(None)
  }

  /** The texts the clock parser short-cuts to zero. */
  const ZeroLiterals: seq<string> := ["0", "00", "00:00", "0:00", "0.0", "00.0"]

  /** `_parse_time_to_seconds` of the legacy clock controller: `None` or
      blank gives `None`; the zero literals give 0; the colon block; then a
      text with a `.` goes through `float` and keeps the integer part; then
      `int`. Every negative reading is rejected. */
  function ParseClock(t: Option<string>): (r: Option<int>)
    ensures r.Some? ==> r.value >= 0
    ensures t.None? || |Strip(t.value)| == 0 ==> r.None?
    ensures t.Some? && Strip(t.value) in ZeroLiterals ==> r == Some(0)
  {
    if t.None? then None
    else
      var s := Strip(t.value);
      if |s| == 0 then None
      else if s in ZeroLiterals then Some(0)
      else match ColonBranch(s)
        case Returns(v) => v
        case FallThrough =>
          if '.' in s then
            match ParseDecimal(RemoveAll(s, ' '))
            case Some(d) => if d.IsNegative() then None else Some(d.Truncate())
            case None => None
          else
            match ParseInt(RemoveAll(s, ' '))
            case Some(v) => if v < 0 then None else Some(v)
            case None => None
  }

  /** `_parse_time_to_seconds` of the legacy graphics controller: the same
      colon block, then `int(float(t))` with no check of the sign. */
  function ParseGraphics(t: Option<string>): (r: Option<int>)
    ensures t.None? || |Strip(t.value)| == 0 ==> r.None?
  {
    if t.None? then None
    else
      var s := Strip(t.value);
      if |s| == 0 then None
      else match ColonBranch(s)
        case Returns(v) => v
        case FallThrough =>
          match ParseDecimal(s)
          case Some(d) => Some(d.Truncate())
          case None => None
  }

  /** `_time_to_seconds` of the penalty controller: never fails; `M:S` is
      `m * 60 + s` with no range check, a bare integer is itself, and
      everything else is 0. */
  function PenaltySeconds(t: string): (r: int)
    ensures |Strip(t)| == 0 ==> r == 0
    ensures ':' in Strip(t) && |Split(Strip(t), ':')| != 2 ==> r == 0
    ensures ':' !in Strip(t) && ParseInt(Strip(t)).None? ==> r == 0
  {
    if |t| == 0 then 0
    else
      var s := Strip(t);
      if ':' in s then
        var parts := Split(s, ':');
        if |parts| == 2 then
          match (ParseInt(parts[0]), ParseInt(parts[1]))
          case (Some(m), Some(sec)) => m * 60 + sec
          case _ => 0
        else 0
      else
        match ParseInt(s)
        case Some(v) => v
        case None => 0
  }

  // ---------------------------------------------------------------
  // What each parser does on its own
  // ---------------------------------------------------------------

  /** A separator-free, space-free `a:b` in the colon block is the `try`
      around the two `int` calls on `a` and `b`. */
  lemma ColonBranchTwoParts(a: string, b: string)
    requires ':' !in a && ':' !in b && ' ' !in a && ' ' !in b
    ensures ColonBranch(a + ":" + b) == ColonValue(a, b)
  {
    JoinedColonParts(a, b);
    ColonBranchSplit(a + ":" + b, [a, b]);
  }

  /** `a:b` of separator-free, space-free parts has a colon, loses nothing
      when its spaces are deleted, and splits back into `a` and `b`. */
  lemma JoinedColonParts(a: string, b: string)
    requires ':' !in a && ':' !in b && ' ' !in a && ' ' !in b
    ensures ':' in a + ":" + b
    ensures RemoveAll(a + ":" + b, ' ') == a + ":" + b
    ensures Split(RemoveAll(a + ":" + b, ' '), ':') == [a, b]
  {
    var t := a + ":" + b;
    assert t == a + [':'] + b;
    assert t[|a|] == ':';
    assert ' ' !in t by {
      forall i | 0 <= i < |t| ensures t[i] != ' ' {
        if i < |a| { assert t[i] == a[i]; }
        else if i > |a| { assert t[i] == b[i - |a| - 1]; }
      }
    }
    SplitTwo(a, b, ':');
  }

  /** Past the blank and zero-literal checks, a colon text that the colon
      block answers is read by the clock parser exactly as the block says. */
  lemma ParseClockViaColon(t: string)
    requires |Strip(t)| > 0 && Strip(t) !in ZeroLiterals
    requires ColonBranch(Strip(t)).Returns?
    ensures ParseClock(Some(t)) == ColonBranch(Strip(t)).value
  {
  }

  /** Likewise for the graphics parser, which has no zero literals. */
  lemma ParseGraphicsViaColon(t: string)
    requires |Strip(t)| > 0 && ColonBranch(Strip(t)).Returns?
    ensures ParseGraphics(Some(t)) == ColonBranch(Strip(t)).value
  {
  }

  /** `a:b` of two space-free, separator-free parts, with no whitespace. */
  lemma JoinedNoSpace(a: string, b: string)
    requires NoSpace(a) && NoSpace(b)
    ensures NoSpace(a + ":" + b) && Strip(a + ":" + b) == a + ":" + b
  {
    var t := a + ":" + b;
    assert NoSpace(t) by {
      forall i | 0 <= i < |t| ensures !IsSpace(t[i]) {
        if i < |a| { assert t[i] == a[i]; }
        else if i > |a| { assert t[i] == b[i - |a| - 1]; }
      }
    }
    StripNoSpace(t);
  }

  /** `"M:S"` with two non-negative integers reads as `m * 60 + s` in the
      clock parser, whatever the seconds. */
  lemma ParseClockMinutesSeconds(m: nat, s: nat)
    ensures ParseClock(Some(NatToString(m) + ":" + NatToString(s))) == Some(m * 60 + s)
  {
    var a := NatToString(m);
    var b := NatToString(s);
    DigitsNoSpace(a);
    DigitsNoSpace(b);
    JoinedNoSpace(a, b);
    assert ':' !in a && ':' !in b && ' ' !in a && ' ' !in b by {
      assert !IsDigit(':') && !IsDigit(' ');
    }
    ParseNatToString(m);
    ParseNatToString(s);
    ParseClockJoined(a, b, m, s);
  }

  lemma ParseClockJoined(a: string, b: string, m: nat, s: nat)
    requires ':' !in a && ':' !in b && ' ' !in a && ' ' !in b
    requires Strip(a + ":" + b) == a + ":" + b
    requires ParseInt(a) == Some(m) && ParseInt(b) == Some(s)
    ensures ParseClock(Some(a + ":" + b)) == Some(m * 60 + s)
  {
    var t := a + ":" + b;
    if t in ZeroLiterals {
      ZeroLiteralWithColon(a, b);
    } else {
      ColonBranchTwoParts(a, b);
      ColonValueOf(a, b, m, s);
      ParseClockViaColon(t);
    }
  }

  /** The zero literals that contain a colon read as zero through the
      colon block too, so the short-cut never changes a colon reading. */
  lemma ZeroLiteralWithColon(a: string, b: string)
    requires ':' !in a && ':' !in b
    requires a + ":" + b in ZeroLiterals
    ensures ParseInt(a) == Some(0) && ParseInt(b) == Some(0)
  {
    var t := a + ":" + b;
    assert t == a + [':'] + b;
    assert t[|a|] == ':';
    ColonZeroLiterals(t);
    SplitTwo(a, b, ':');
    ParseIntZero();
    ParseIntZeroZero();
    if t == "00:00" {
      SplitZeroZeroColon();
    } else {
      SplitZeroColon();
    }
  }

  lemma ColonZeroLiterals(t: string)
    requires t in ZeroLiterals && ':' in t
    ensures t == "00:00" || t == "0:00"
  {
    assert ':' !in "0" && ':' !in "00" && ':' !in "0.0" && ':' !in "00.0";
  }

  lemma SplitZeroZeroColon()
    ensures Split("00:00", ':') == ["00", "00"]
  {
    assert "00:00" == "00" + [':'] + "00";
    SplitTwo("00", "00", ':');
  }

  lemma SplitZeroColon()
    ensures Split("0:00", ':') == ["0", "00"]
  {
    assert "0:00" == "0" + [':'] + "00";
    SplitTwo("0", "00", ':');
  }

  lemma ParseIntZero()
    ensures ParseInt("0") == Some(0)
  {
    StripNoSpace("0");
  }

  lemma ParseIntZeroZero()
    ensures ParseInt("00") == Some(0)
  {
    StripNoSpace("00");
    assert "00"[..1] == "0" && "0"[..0] == "";
  }

  /** A bare non-negative integer reads as itself in the clock parser. */
  lemma ParseClockBareNumber(n: nat)
    ensures ParseClock(Some(NatToString(n))) == Some(n)
  {
    var t := NatToString(n);
    DigitsNoSpace(t);
    assert ':' !in t && '.' !in t && ' ' !in t by {
      assert !IsDigit(':') && !IsDigit('.') && !IsDigit(' ');
    }
    ParseNatToString(n);
    if t in ZeroLiterals {
      assert t == "0" || t == "00" by {
        assert ':' in "00:00" && ':' in "0:00" && '.' in "0.0" && '.' in "00.0";
      }
      ParseIntZero();
      ParseIntZeroZero();
    }
  }

  /** A decimal `w.f` keeps only its integer part in the clock parser. */
  lemma ParseClockDecimal(w: string, f: string)
    requires IsDigitString(w) && AllDigits(f)
    ensures ParseClock(Some(w + "." + f)) == Some(DigitsValue(w))
  {
    var t := w + "." + f;
    DigitsNoSpace(w);
    DigitsNoSpace(f);
    assert ':' !in w && ':' !in f by {
      assert !IsDigit(':');
    }
    assert "" + w == w;
    DecimalText("", w, f);
    assert ' ' !in t by {
      assert forall i :: 0 <= i < |t| ==> !IsSpace(t[i]);
    }
    assert t[|w|] == '.';
    ParseDecimalSigned(t, false, t, w, f);
    if t in ZeroLiterals {
      ZeroLiteralDecimal(w, f);
    } else {
      ParseClockViaDecimal(t);
    }
  }

  /** Past the blank, zero-literal and colon checks, a text with a point
      goes through `float` with its spaces deleted. */
  lemma ParseClockViaDecimal(t: string)
    requires |Strip(t)| > 0 && Strip(t) !in ZeroLiterals && ':' !in Strip(t) && '.' in Strip(t)
    ensures ParseClock(Some(t)) ==
      match ParseDecimal(RemoveAll(Strip(t), ' '))
      case Some(d) => if d.IsNegative() then None else Some(d.Truncate())
      case None => None
  {
  }

  lemma ZeroLiteralDecimal(w: string, f: string)
    requires IsDigitString(w) && AllDigits(f)
    requires w + "." + f in ZeroLiterals
    ensures DigitsValue(w) == 0
  {
    var t := w + "." + f;
    assert t == w + ['.'] + f;
    assert t[|w|] == '.';
    assert '.' !in w && '.' !in f by { assert !IsDigit('.'); }
    assert t == "0.0" || t == "00.0" by {
      assert '.' !in "0" && '.' !in "00" && '.' !in "00:00" && '.' !in "0:00";
    }
    SplitTwo(w, f, '.');
    if t == "0.0" {
      assert "0.0" == "0" + ['.'] + "0";
      SplitTwo("0", "0", '.');
    } else {
      assert "00.0" == "00" + ['.'] + "0";
      SplitTwo("00", "0", '.');
      assert "00"[..1] == "0" && "0"[..0] == "";
    }
  }

  /** The graphics parser truncates a decimal and keeps its sign. */
  lemma ParseGraphicsDecimal(neg: bool, w: string, f: string)
    requires IsDigitString(w) && AllDigits(f)
    ensures ParseGraphics(Some((if neg then "-" else "") + w + "." + f)) ==
      Some(if neg then -(DigitsValue(w) as int) else DigitsValue(w) as int)
  {
    var sign := if neg then "-" else "";
    var body := w + "." + f;
    var t := sign + w + "." + f;
    assert t == sign + body;
    DigitsNoSpace(w);
    DigitsNoSpace(f);
    assert '.' !in w && '.' !in f && ':' !in w && ':' !in f by {
      assert !IsDigit('.') && !IsDigit(':');
    }
    DecimalText(sign, w, f);
    ParseDecimalSigned(t, neg, body, w, f);
    ParseGraphicsViaDecimal(t);
    var d := Decimal(neg, DigitsValue(w), AllZeros(f));
    assert ParseGraphics(Some(t)) == Some(d.Truncate());
  }

  /** `[-]w.f` has no whitespace and no colon. */
  lemma DecimalText(sign: string, w: string, f: string)
    requires sign == "" || sign == "-"
    requires NoSpace(w) && NoSpace(f) && ':' !in w && ':' !in f
    ensures NoSpace(sign + w + "." + f) && ':' !in sign + w + "." + f
    ensures Strip(sign + w + "." + f) == sign + w + "." + f
  {
    var t := sign + w + "." + f;
    forall i | 0 <= i < |t| ensures !IsSpace(t[i]) && t[i] != ':' {
      if i < |sign| { assert t[i] == '-'; }
      else if i < |sign| + |w| { assert t[i] == w[i - |sign|]; }
      else if i > |sign| + |w| { assert t[i] == f[i - |sign| - |w| - 1]; }
    }
    StripNoSpace(t);
  }

  /** `float()` of `[-]w.f` for digit strings `w` and `f`. */
  lemma ParseDecimalSigned(t: string, neg: bool, body: string, w: string, f: string)
    requires IsDigitString(w) && AllDigits(f)
    requires body == w + "." + f
    requires t == (if neg then "-" else "") + body
    requires Strip(t) == t
    ensures ParseDecimal(t) == Some(Decimal(neg, DigitsValue(w), AllZeros(f)))
  {
    DecimalBodyPoint(neg, w, f);
    if neg {
      assert t[0] == '-' && t[1..] == body;
    } else {
      assert t == body;
      assert t[0] == w[0];
    }
  }

  /** A colon-free text goes straight to `int(float(t))` in the graphics parser. */
  lemma ParseGraphicsViaDecimal(t: string)
    requires |Strip(t)| > 0 && ':' !in Strip(t)
    ensures ParseGraphics(Some(t)) ==
      match ParseDecimal(Strip(t)) case Some(d) => Some(d.Truncate()) case None => None
  {
  }

  /** The penalty parser reads `a:b` as `m * 60 + s` for any two integers. */
  lemma PenaltySecondsTwoParts(a: string, b: string)
    requires ':' !in a && ':' !in b && |a| > 0 && NoSpace(a) && NoSpace(b)
    ensures PenaltySeconds(a + ":" + b) ==
      if ParseInt(a).Some? && ParseInt(b).Some? then ParseInt(a).value * 60 + ParseInt(b).value else 0
  {
    var t := a + ":" + b;
    assert NoSpace(t) by {
      forall i | 0 <= i < |t| ensures !IsSpace(t[i]) {
        if i < |a| { assert t[i] == a[i]; }
        else if i > |a| { assert t[i] == b[i - |a| - 1]; }
      }
    }
    StripNoSpace(t);
    assert t[|a|] == ':';
    assert t == a + [':'] + b;
    SplitTwo(a, b, ':');
  }

  /** A bare integer reads as itself in the penalty parser. */
  lemma PenaltySecondsBareInteger(i: int)
    ensures PenaltySeconds(IntToString(i)) == i
  {
    var t := IntToString(i);
    StripNoSpace(t);
    ParseIntToString(i);
    assert ':' !in t by {
      if i < 0 {
        assert t[1..] == NatToString(-i);
        assert forall k :: 1 <= k < |t| ==> t[k] == t[1..][k - 1];
      }
    }
  }

  // ---------------------------------------------------------------
  // Agreement with the strict parser
  // ---------------------------------------------------------------

  /** The colon block on a text that splits into two integer parts: the
      deleted spaces change neither part's integer. */
  lemma ColonBranchOfParts(s: string, m: int, x: int)
    requires |Split(s, ':')| == 2
    requires ParseInt(Split(s, ':')[0]) == Some(m) && ParseInt(Split(s, ':')[1]) == Some(x)
    ensures ColonBranch(s) == Returns(if m < 0 || x < 0 then None else Some(m * 60 + x))
  {
    var parts := Split(s, ':');
    assert ':' in s;
    var q := Split(RemoveAll(s, ' '), ':');
    SpacesOutOfParts(s, parts, q);
    ColonBranchSplit(s, q);
    ColonValueOf(q[0], q[1], m, x);
  }

  lemma SpacesOutOfParts(s: string, parts: seq<string>, q: seq<string>)
    requires parts == Split(s, ':') && q == Split(RemoveAll(s, ' '), ':')
    requires |parts| == 2 && ParseInt(parts[0]).Some? && ParseInt(parts[1]).Some?
    ensures |q| == 2 && ParseInt(q[0]) == ParseInt(parts[0]) && ParseInt(q[1]) == ParseInt(parts[1])
  {
    SplitRemoveAll(s, ':', ' ');
    assert q == RemoveAllEach(parts, ' ');
    ParseIntRemoveSpaces(parts[0]);
    ParseIntRemoveSpaces(parts[1]);
  }

  lemma ColonBranchSplit(s: string, q: seq<string>)
    requires ':' in s && q == Split(RemoveAll(s, ' '), ':') && |q| == 2
    ensures ColonBranch(s) == ColonValue(q[0], q[1])
  {
  }

  /** A text the strict parser accepts reaches the colon block, which
      returns the same reading. */
  lemma StrictAcceptedShape(v: string)
    requires ParseMmss(v).Some?
    ensures var s := Strip(v);
      && |s| > 0 && ':' in s
      && |Split(s, ':')| == 2
      && ColonBranch(s) == Returns(ParseMmss(v))
  {
    ParseMmssSpec(v);
    var s := Strip(v);
    assert |s| > 0;
    var parts := Split(s, ':');
    ColonBranchOfParts(s, ParseInt(parts[0]).value, ParseInt(parts[1]).value);
  }

  /** The strict parser's zero literals: the only ones it accepts read 0. */
  lemma MmssOfDoubleZero()
    ensures ParseMmss("00:00") == Some(0)
  {
    StripNoSpace("00:00");
    SplitZeroZeroColon();
    ParseIntZeroZero();
    var parts := Split(Strip("00:00"), ':');
    assert parts[0] == "00" && parts[1] == "00";
  }

  lemma MmssOfSingleZero()
    ensures ParseMmss("0:00") == Some(0)
  {
    StripNoSpace("0:00");
    SplitZeroColon();
    ParseIntZero();
    ParseIntZeroZero();
    var parts := Split(Strip("0:00"), ':');
    assert parts[0] == "0" && parts[1] == "00";
  }

  lemma StrictOnZeroLiteral(s: string)
    requires s in ZeroLiterals && ':' in s
    ensures ParseMmss(s) == Some(0)
  {
    ColonZeroLiterals(s);
    if s == "00:00" {
      MmssOfDoubleZero();
    } else {
      MmssOfSingleZero();
    }
  }

  /** Wherever the strict parser accepts a time, the clock parser reads the
      same number of seconds. */
  lemma ClockAgreesWithStrict(v: string)
    requires ParseMmss(v).Some?
    ensures ParseClock(Some(v)) == ParseMmss(v)
  {
    StrictAcceptedShape(v);
    var s := Strip(v);
    if s in ZeroLiterals {
      ZeroLiteralStripped(s);
      StrictOnZeroLiteralOf(v, s);
    } else {
      ParseClockViaColon(v);
    }
  }

  lemma StrictOnZeroLiteralOf(v: string, s: string)
    requires ParseMmss(v).Some? && s == Strip(v) && s in ZeroLiterals && Strip(s) == s && ':' in s
    ensures ParseMmss(v) == Some(0)
  {
    MmssOfStripped(v);
    StrictOnZeroLiteral(s);
  }

  /** The strict parser strips its argument, so a stripped text reads the
      same. */
  lemma MmssOfStripped(v: string)
    requires |v| > 0 && |Strip(v)| > 0 && Strip(Strip(v)) == Strip(v)
    ensures ParseMmss(Strip(v)) == ParseMmss(v)
  {
  }

  lemma ZeroLiteralStripped(s: string)
    requires s in ZeroLiterals
    ensures Strip(s) == s
  {
    if s == "0" { StripNoSpace("0"); }
    else if s == "00" { StripNoSpace("00"); }
    else if s == "00:00" { StripNoSpace("00:00"); }
    else if s == "0:00" { StripNoSpace("0:00"); }
    else if s == "0.0" { StripNoSpace("0.0"); }
    else { StripNoSpace("00.0"); }
  }

  /** The graphics parser agrees with the strict parser wherever it accepts. */
  lemma GraphicsAgreesWithStrict(v: string)
    requires ParseMmss(v).Some?
    ensures ParseGraphics(Some(v)) == ParseMmss(v)
  {
    StrictAcceptedShape(v);
  }

  /** The penalty parser agrees with the strict parser wherever it accepts. */
  lemma PenaltyAgreesWithStrict(v: string)
    requires ParseMmss(v).Some?
    ensures PenaltySeconds(v) == ParseMmss(v).value
  {
    StrictAcceptedShape(v);
    ParseMmssSpec(v);
  }

  // ---------------------------------------------------------------
  // Where the parsers disagree
  // ---------------------------------------------------------------

  /** Seconds past 59: for every `"M:S"` of two non-negative integers with
      `S >= 60`, the strict parser refuses the text while the clock, graphics
      and penalty parsers all read it as `M * 60 + S`. */
  lemma SecondsPastFiftyNine(m: nat, s: nat)
    requires s >= 60
    ensures ParseMmss(NatToString(m) + ":" + NatToString(s)) == None
    ensures ParseClock(Some(NatToString(m) + ":" + NatToString(s))) == Some(m * 60 + s)
    ensures ParseGraphics(Some(NatToString(m) + ":" + NatToString(s))) == Some(m * 60 + s)
    ensures PenaltySeconds(NatToString(m) + ":" + NatToString(s)) == m * 60 + s
  {
    var a := NatToString(m);
    var b := NatToString(s);
    DigitsNoSpace(a);
    DigitsNoSpace(b);
    JoinedNoSpace(a, b);
    assert ':' !in a && ':' !in b && ' ' !in a && ' ' !in b by {
      assert !IsDigit(':') && !IsDigit(' ');
    }
    ParseNatToString(m);
    ParseNatToString(s);
    ParseTwoParts(a, b);
    ParseClockJoined(a, b, m, s);
    ColonBranchTwoParts(a, b);
    ColonValueOf(a, b, m, s);
    ParseGraphicsViaColon(a + ":" + b);
    PenaltySecondsTwoParts(a, b);
  }

  /** A decimal reading: for all digit strings `w` (non-empty) and `f`,
      `"w.f"` is `int(w)` seconds to both legacy parsers, 0 to the penalty
      parser (its `int` fails) and rejected by the strict parser (one
      part). */
  lemma DecimalReading(w: string, f: string)
    requires IsDigitString(w) && AllDigits(f)
    ensures ParseMmss(w + "." + f) == None
    ensures ParseClock(Some(w + "." + f)) == Some(DigitsValue(w))
    ensures ParseGraphics(Some(w + "." + f)) == Some(DigitsValue(w))
    ensures PenaltySeconds(w + "." + f) == 0
  {
    DecimalPlainText(w, f);
    ParseMmssNeedsColon(w + "." + f);
    ParseClockDecimal(w, f);
    ParseGraphicsDecimal(false, w, f);
    DecimalNotInteger(w, f);
  }

  /** `w.f` of digits has no whitespace and no colon. */
  lemma DecimalPlainText(w: string, f: string)
    requires IsDigitString(w) && AllDigits(f)
    ensures Strip(w + "." + f) == w + "." + f && ':' !in w + "." + f
    ensures (if false then "-" else "") + w + "." + f == w + "." + f
  {
    DigitsNoSpace(w);
    DigitsNoSpace(f);
    assert ':' !in w && ':' !in f by { assert !IsDigit(':'); }
    DecimalText("", w, f);
    assert "" + w + "." + f == w + "." + f;
  }

  /** `int()` refuses `w.f`, so the penalty parser reads 0. */
  lemma DecimalNotInteger(w: string, f: string)
    requires IsDigitString(w) && Strip(w + "." + f) == w + "." + f && ':' !in w + "." + f
    ensures PenaltySeconds(w + "." + f) == 0
  {
    var t := w + "." + f;
    assert t[|w|] == '.' && t[0] == w[0];
    assert !IsDigitString(t);
  }

  /** A negative number: for every `i < 0`, `str(i)` is rejected by the
      strict and clock parsers and read as `i` by the graphics and penalty
      parsers. */
  lemma NegativeReading(i: int)
    requires i < 0
    ensures ParseMmss(IntToString(i)) == None
    ensures ParseClock(Some(IntToString(i))) == None
    ensures ParseGraphics(Some(IntToString(i))) == Some(i)
    ensures PenaltySeconds(IntToString(i)) == i
  {
    var t := IntToString(i);
    NegativeText(i);
    ParseMmssNeedsColon(t);
    NegativeClock(t, i);
    NegativeGraphics(t, i);
    PenaltySecondsBareInteger(i);
  }

  /** `str(i)` for `i < 0` is `-` and digits: no colon, point or space. */
  lemma NegativeText(i: int)
    requires i < 0
    ensures var t := IntToString(i);
      && ':' !in t && '.' !in t && ' ' !in t && Strip(t) == t
      && t[0] == '-' && t[1..] == NatToString(-i)
      && ParseInt(t) == Some(i)
  {
    var t := IntToString(i);
    var d := NatToString(-i);
    assert t == "-" + d && t[1..] == d;
    assert ':' !in d && '.' !in d && ' ' !in d by {
      assert !IsDigit(':') && !IsDigit('.') && !IsDigit(' ');
      assert forall k :: 0 <= k < |d| ==> IsDigit(d[k]);
    }
    assert ':' !in t && '.' !in t && ' ' !in t by {
      assert forall k :: 1 <= k < |t| ==> t[k] == d[k - 1];
    }
    StripNoSpace(t);
    ParseIntToString(i);
  }

  lemma NegativeClock(t: string, i: int)
    requires i < 0 && ':' !in t && '.' !in t && ' ' !in t && Strip(t) == t
    requires |t| > 0 && t[0] == '-' && ParseInt(t) == Some(i)
    ensures ParseClock(Some(t)) == None
  {
    assert t !in ZeroLiterals;
    assert RemoveAll(t, ' ') == t;
    ParseClockByInt(t);
  }

  lemma NegativeGraphics(t: string, i: int)
    requires i < 0 && ':' !in t && '.' !in t && Strip(t) == t
    requires |t| > 0 && t[0] == '-' && t[1..] == NatToString(-i)
    ensures ParseGraphics(Some(t)) == Some(i)
  {
    assert Split(t[1..], '.') == [t[1..]];
    assert ParseDecimal(t) == Some(Decimal(true, -i, true));
    ParseGraphicsViaDecimal(t);
  }

  /** Three parts: every `"a:b:c"` of colon-free pieces with no whitespace
      is rejected by every parser that can reject, and is 0 to the penalty
      parser. */
  lemma ThreeParts(a: string, b: string, c: string)
    requires ':' !in a && ':' !in b && ':' !in c
    requires NoSpace(a + [':'] + (b + [':'] + c))
    ensures ParseMmss(a + [':'] + (b + [':'] + c)) == None
    ensures ParseClock(Some(a + [':'] + (b + [':'] + c))) == None
    ensures ParseGraphics(Some(a + [':'] + (b + [':'] + c))) == None
    ensures PenaltySeconds(a + [':'] + (b + [':'] + c)) == 0
  {
    var t := a + [':'] + (b + [':'] + c);
    RejectsThreePieces(a, b, c);
    ThreePiecesText(a, b, c);
    ColonNotANumber(t);
    ThreePartsLegacy(t);
  }

  /** `a:b:c` is its own strip, has no space to delete, and splits into
      three. */
  lemma ThreePiecesText(a: string, b: string, c: string)
    requires ':' !in a && ':' !in b && ':' !in c
    requires NoSpace(a + [':'] + (b + [':'] + c))
    ensures var t := a + [':'] + (b + [':'] + c);
      Strip(t) == t && ' ' !in t && ':' in t && |Split(t, ':')| == 3
  {
    var t := a + [':'] + (b + [':'] + c);
    StripNoSpace(t);
    assert t[|a|] == ':';
    assert ' ' !in t by {
      assert IsSpace(' ');
      assert forall k :: 0 <= k < |t| ==> !IsSpace(t[k]);
    }
    SplitTwo(b, c, ':');
    SplitCons(a, b + [':'] + c, ':');
  }

  /** A blank-free, space-free text of three colon parts that is no
      number is no value to either legacy parser. */
  lemma ThreePartsLegacy(t: string)
    requires Strip(t) == t && ' ' !in t && ':' in t && |Split(t, ':')| == 3
    requires ParseInt(t) == None && ParseDecimal(t) == None
    ensures ParseClock(Some(t)) == None
    ensures ParseGraphics(Some(t)) == None
  {
    assert RemoveAll(t, ' ') == t;
    assert ColonBranch(t) == FallThrough;
    if t in ZeroLiterals {
      ColonZeroLiterals(t);
      if t == "00:00" { SplitZeroZeroColon(); } else { SplitZeroColon(); }
      assert false;
    }
  }

  /** The clock parser on a text with neither a usable colon nor a point
      ends in `int`, negative readings rejected. */
  lemma ParseClockByInt(t: string)
    requires Strip(t) == t && |t| > 0 && t !in ZeroLiterals
    requires ColonBranch(t) == FallThrough && '.' !in t
    ensures ParseClock(Some(t)) ==
      match ParseInt(RemoveAll(t, ' '))
      case Some(v) => if v < 0 then None else Some(v)
      case None => None
  {
  }

  lemma ColonValueOf(a: string, b: string, m: int, s: int)
    requires ParseInt(a) == Some(m) && ParseInt(b) == Some(s)
    ensures ColonValue(a, b) == Returns(if m < 0 || s < 0 then None else Some(m * 60 + s))
  {
  }
}
