/** The decisions `ScoreboardApp` of `legacy/vmix_gui_tk.py` takes between
    the engine and the operator, without the widgets: the zero latch that
    runs the period-end actions once per stretch of 00:00 readings, the
    guard that refuses to start a clock at 00:00, the period sequence
    1, 2, 3, OT, the period read back from the graphic, and the checks of
    the penalty and settings dialogs. Message boxes become the absence of
    a controller call; the operator's answers are parameters. */
module GuiLogic {
  import opened Wrappers
  import opened PyText
  import opened ScoreboardTime

  /** What the GUI asks of the controller. */
  datatype GuiAction =
    | HideOverlay                         // set_scoreboard_overlay(False)
    | ShowOverlay                         // set_scoreboard_overlay(True)
    | StopAtZero                          // stop_clock_and_penalties_at_zero()
    | AskNewPeriod                        // the "new period?" question
    | ToggleClock                         // toggle_clock()
    | SetPeriod(text: string)             // set_period(text)
    | SetMatchTime(time: string)          // set_match_time(time)
    | SetPenalty(number: string, time: string)   // set_penalty(slot, number, "", time)

  // ---------------------------------------------------------------
  // The zero latch of `_update_from_state`
  // ---------------------------------------------------------------

  /** One poll: a reading of exactly 0 runs the period-end actions unless
      the latch is already set, and sets it; any other reading, `None`
      included, resets it. */
  function ZeroStep(latched: bool, secs: Option<int>): (bool, seq<GuiAction>) {
    if secs == Some(0) then
      (true, if latched then [] else [HideOverlay, StopAtZero, AskNewPeriod])
    else (false, [])
  }

  /** Whether each poll of a run of polls fired the period-end actions. */
  function Firings(latched: bool, trace: seq<Option<int>>): (r: seq<bool>)
    ensures |r| == |trace|
    decreases |trace|
  {
    if trace == [] then []
    else
      var (l, acts) := ZeroStep(latched, trace[0]);
      [acts != []] + Firings(l, trace[1..])
  }

  /** A poll starts a stretch of zero readings. */
  predicate StartsZeroRun(latched: bool, trace: seq<Option<int>>, i: nat)
    requires i < |trace|
  {
    trace[i] == Some(0) && (if i == 0 then !latched else trace[i - 1] != Some(0))
  }

  /** The actions fire exactly on the first poll of each stretch of zero
      readings: once per stretch, and again only after a non-zero or
      missing reading. */
  lemma {:induction false} FiringsSpec(latched: bool, trace: seq<Option<int>>)
    ensures forall i :: 0 <= i < |trace| ==> (Firings(latched, trace)[i] <==> StartsZeroRun(latched, trace, i))
    decreases |trace|
  {
    if trace != [] {
      var (l, _) := ZeroStep(latched, trace[0]);
      FiringsSpec(l, trace[1..]);
      forall i | 1 <= i < |trace|
        ensures Firings(latched, trace)[i] <==> StartsZeroRun(latched, trace, i)
      {
        assert Firings(latched, trace)[i] == Firings(l, trace[1..])[i - 1];
        assert StartsZeroRun(l, trace[1..], i - 1) <==> StartsZeroRun(latched, trace, i);
      }
    }
  }

  /** A stretch of zero readings after a firing fires nothing more. */
  lemma {:induction false} ZeroStretchQuiet(trace: seq<Option<int>>)
    requires forall i :: 0 <= i < |trace| ==> trace[i] == Some(0)
    ensures forall i :: 0 <= i < |trace| ==> !Firings(true, trace)[i]
  {
    FiringsSpec(true, trace);
  }

  // ---------------------------------------------------------------
  // The start guard of `_on_toggle_clock`
  // ---------------------------------------------------------------

  /** The clock button. `reading` is the clock field's text, or `None`
      when reading it raised, which counts as "00:00". While the GUI shows
      the clock stopped, a reading that does not parse or parses to 0
      blocks the call; a successful start from stopped also shows the
      scoreboard when it is hidden. */
  function OnToggleClock(runningUi: bool, visible: bool, reading: Option<string>, toggleOk: bool): seq<GuiAction> {
    var raw := reading.GetOr("00:00");
    var secs := ParseMmss(raw);
    if !runningUi && (secs.None? || secs.value == 0) then []
    else if !toggleOk then [ToggleClock]
    else [ToggleClock] + (if !runningUi && !visible then [ShowOverlay] else [])
  }

  /** `toggle_clock` is reached exactly when the clock is shown running
      or the field reads a positive time; a failed read blocks a start. */
  lemma StartGuard(runningUi: bool, visible: bool, reading: Option<string>, toggleOk: bool)
    ensures var acts := OnToggleClock(runningUi, visible, reading, toggleOk);
      var secs := ParseMmss(reading.GetOr("00:00"));
      && (acts != [] <==> runningUi || (secs.Some? && secs.value > 0))
      && (acts != [] ==> acts[0] == ToggleClock)
      && (ShowOverlay in acts <==> acts != [] && toggleOk && !runningUi && !visible)
    ensures reading.None? && !runningUi ==> OnToggleClock(runningUi, visible, reading, toggleOk) == []
  {
    ZeroText();
  }

  // ---------------------------------------------------------------
  // Periods
  // ---------------------------------------------------------------

  /** 1 → 2 → 3 → OT (4), then OT stays. */
  function NextPeriod(p: int): (r: int)
    ensures 1 <= p <= 4 ==> 1 <= r <= 4
  {
    if p < 4 then p + 1 else 4
  }

  /** What is written to the period field. */
  function PeriodLabel(p: int): string {
    if p == 4 then "OT" else IntToString(p)
  }

  /** `_ask_new_period`: on "yes" the period advances; when connected, the
      new period is written and the match time set to the OT time for OT
      and the period time otherwise. */
  function NewPeriod(p: int, yes: bool, connected: bool, periodTime: string, otTime: string): (int, seq<GuiAction>) {
    if !yes then (p, [])
    else
      var p' := NextPeriod(p);
      if !connected then (p', [])
      else (p', [SetPeriod(PeriodLabel(p')), SetMatchTime(if p' == 4 then otTime else periodTime)])
  }

  /** `n` accepted new periods from period 1. */
  function Advance(p: int, n: nat): int
    decreases n
  {
    if n == 0 then p else Advance(NextPeriod(p), n - 1)
  }

  /** From period 1, `n` new periods reach `min(1 + n, 4)`. */
  lemma {:induction false} AdvanceSaturates(p: int, n: nat)
    requires 1 <= p <= 4
    ensures Advance(p, n) == if p + n < 4 then p + n else 4
    decreases n
  {
    if n > 0 {
      AdvanceSaturates(NextPeriod(p), n - 1);
    }
  }

  /** Each accepted new period writes its label and the matching time. */
  lemma NewPeriodSpec(p: int, connected: bool, periodTime: string, otTime: string)
    requires 1 <= p <= 4
    ensures var (p', acts) := NewPeriod(p, true, connected, periodTime, otTime);
      && p' == (if p < 4 then p + 1 else 4)
      && (connected ==> acts == [SetPeriod(if p' == 4 then "OT" else IntToString(p')),
                                 SetMatchTime(if p' == 4 then otTime else periodTime)])
      && (!connected ==> acts == [])
    ensures NewPeriod(p, false, connected, periodTime, otTime) == (p, [])
  {
  }

  /** The period shown by the graphic: "OT" in any case is 4, otherwise
      `int(per)`; only 1 to 4 is taken, anything else is ignored. */
  function DecodePeriod(per: string): (r: Option<int>)
    ensures r.Some? ==> 1 <= r.value <= 4
  {
    if per == "" then None
    else if Upper(per) == "OT" then Some(4)
    else match ParseInt(per)
      case Some(i) => if 1 <= i <= 4 then Some(i) else None
      case None => None
  }

  /** The current period after a poll: the decoded one when there is one,
      the old one otherwise. */
  function PollPeriod(current: int, per: string): int {
    DecodePeriod(per).GetOr(current)
  }

  /** Reading back what a new period wrote gives the period. */
  lemma DecodeLabel(p: int)
    requires 1 <= p <= 4
    ensures DecodePeriod(PeriodLabel(p)) == Some(p)
  {
    if p < 4 {
      ParseIntToString(p);
      var s := IntToString(p);
      assert |s| == 1 by { assert s == [DigitChar(p)]; }
    }
  }

  /** `per.upper() == "OT"` holds for exactly the four spellings of "OT",
      and period 4 is read from exactly those and from the text of 4. */
  lemma DecodeOvertime(per: string)
    ensures Upper(per) == "OT" <==>
      |per| == 2 && (per[0] == 'O' || per[0] == 'o') && (per[1] == 'T' || per[1] == 't')
    ensures DecodePeriod(per) == Some(4) <==> Upper(per) == "OT" || ParseInt(per) == Some(4)
  {
    if |per| == 2 && (per[0] == 'O' || per[0] == 'o') && (per[1] == 'T' || per[1] == 't') {
      assert Upper(per) == "OT";
    }
    if Upper(per) == "OT" {
      assert Upper(per)[0] == 'O' && Upper(per)[1] == 'T';
    }
  }

  /** A period text is ignored exactly when it is neither "OT" in any
      case nor the text of a period button; the text of 1, 2 or 3 selects
      that period. */
  lemma DecodePeriodSpec(per: string)
    ensures ParseInt(per).Some? && 1 <= ParseInt(per).value <= 3 ==> DecodePeriod(per) == ParseInt(per)
    ensures DecodePeriod(per).None? <==>
      Upper(per) != "OT" && (ParseInt(per).None? || !(1 <= ParseInt(per).value <= 4))
  {
  }

  // ---------------------------------------------------------------
  // Buttons and dialogs
  // ---------------------------------------------------------------

  /** `_update_penalty_buttons_state`: the penalty buttons are usable only
      while the clock is shown stopped. */
  function PenaltyButtonsEnabled(runningUi: bool): bool {
    !runningUi
  }

  /** `_update_clock_button` records the running state and then sets the
      penalty buttons from it, so the two buttons agree: while the penalty
      buttons are locked the clock button always reaches `toggle_clock` and
      never shows the overlay (it pauses), and while they are usable it
      acts only on a positive clock reading (it starts). */
  lemma PenaltyButtonsFollowClock(runningUi: bool, visible: bool, reading: Option<string>, toggleOk: bool)
    ensures var acts := OnToggleClock(runningUi, visible, reading, toggleOk);
      !PenaltyButtonsEnabled(runningUi) ==> acts != [] && acts[0] == ToggleClock && ShowOverlay !in acts
    ensures var acts := OnToggleClock(runningUi, visible, reading, toggleOk);
      var secs := ParseMmss(reading.GetOr("00:00"));
      PenaltyButtonsEnabled(runningUi) ==> (acts != [] <==> secs.Some? && secs.value > 0)
  {
    StartGuard(runningUi, visible, reading, toggleOk);
  }

  /** The OK button of the penalty dialog: both entries are stripped, an
      empty time becomes "02:00", and a time the parser rejects stops
      here with no controller call. */
  function PenaltyDialogOk(number: string, time: string): seq<GuiAction> {
    var num := Strip(number);
    var t := if Strip(time) == "" then "02:00" else Strip(time);
    if ParseMmss(t).None? then [] else [SetPenalty(num, t)]
  }

  lemma TwoMinutes()
    ensures ParseMmss("02:00") == Some(120)
  {
    assert ParseMmss("02" + ":" + "00") == Some(120) by {
      assert ParseInt("02") == Some(2) by {
        StripNoSpace("02");
        assert "02"[..1] == "0" && "0"[..0] == "";
      }
      assert ParseInt("00") == Some(0) by {
        StripNoSpace("00");
        assert "00"[..1] == "0" && "0"[..0] == "";
      }
      ParseTwoParts("02", "00");
    }
    assert "02" + ":" + "00" == "02:00";
  }

  /** The dialog sets a penalty exactly when its time is empty or
      parses, and then always with a parseable time. */
  lemma PenaltyDialogSpec(number: string, time: string)
    ensures var acts := PenaltyDialogOk(number, time);
      && (acts != [] <==> Strip(time) == "" || ParseMmss(Strip(time)).Some?)
      && |acts| <= 1
      && (acts != [] ==> acts[0].SetPenalty? && ParseMmss(acts[0].time).Some? && acts[0].number == Strip(number))
      && (Strip(time) == "" ==> acts == [SetPenalty(Strip(number), "02:00")])
  {
    TwoMinutes();
  }

  /** The part of the settings that the dialog validates or converts. */
  datatype Settings = Settings(
    periodTime: string, otTime: string,
    goalChannel: int, goalDurationMs: int,
    afterGoalChannel: int, afterGoalDurationMs: int)

  /** `int(text.strip())`, or `fallback` when that raises. */
  function IntOr(text: string, fallback: int): int {
    ParseInt(Strip(text)).GetOr(fallback)
  }

  /** `on_save`: an invalid period or OT time is refused before anything
      is stored; otherwise the times are stored as typed (stripped) and
      each number falls back to its default when it does not parse. */
  function SaveSettings(period: string, ot: string, goalCh: string, goalDur: string,
                        afterCh: string, afterDur: string): (r: Option<Settings>)
    ensures r.Some? <==> ParseMmss(Strip(period)).Some? && ParseMmss(Strip(ot)).Some?
  {
    var pt := Strip(period);
    var ott := Strip(ot);
    if ParseMmss(pt).None? || ParseMmss(ott).None? then None
    else Some(Settings(pt, ott, IntOr(goalCh, 2), IntOr(goalDur, 5000), IntOr(afterCh, 2), IntOr(afterDur, 4000)))
  }

  /** Saved times are ones the next new period can set; a channel typed
      as a number is kept, anything else becomes channel 2. */
  lemma SaveSettingsSpec(period: string, ot: string, goalCh: string, goalDur: string, afterCh: string, afterDur: string)
    requires SaveSettings(period, ot, goalCh, goalDur, afterCh, afterDur).Some?
    ensures var s := SaveSettings(period, ot, goalCh, goalDur, afterCh, afterDur).value;
      && ParseMmss(s.periodTime).Some? && ParseMmss(s.otTime).Some?
      && (ParseInt(goalCh).Some? ==> s.goalChannel == ParseInt(goalCh).value)
      && (ParseInt(goalCh).None? ==> s.goalChannel == 2)
  {
    StripIdempotent(goalCh);
    ParseIntShape(goalCh);
  }
}
