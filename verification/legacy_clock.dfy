/** The stand-alone clock controller of the legacy app
    (`legacy/clock_controller.py`): setting the match time with its
    permissive parser. Its `_format_mmss` is the same text as the
    scoreboard controller's, so `FormatMmss` serves both. */
module LegacyClock {
  import opened Wrappers
  import opened PyText
  import opened ScoreboardTime
  import opened TimeParsers
  import opened VmixCall
  import opened LegacyClient

  /** `set_match_time`: the text is read with the permissive clock parser
      (`ValueError` when it gives nothing), the scoreboard input is resolved
      (`RuntimeError` when it cannot be), and then the countdown is stopped,
      set and its text written, the last two with the normalised time. */
  function SetMatchTime(st: Status, input: string, clockField: string, timeText: string): (r: Result<seq<Call>>)
    ensures ParseClock(Some(timeText)).None? ==> r.Err? && r.error.ValueError?
    ensures ParseClock(Some(timeText)).Some? ==>
      (r.Ok? <==> FindInputNumber(st, ByName(input)).Some?)
    ensures ParseClock(Some(timeText)).Some? && r.Err? ==> r.error.RuntimeError?
    ensures r.Ok? ==>
      var num := FindInputNumber(st, ByName(input)).value;
      var t := FormatMmss(ParseClock(Some(timeText)).value);
      r.value == [Fn("StopCountdown", num, clockField),
                  FnV("SetCountdown", num, clockField, t),
                  FnV("SetText", num, clockField, t)]
  {
    match ParseClock(Some(timeText))
    case None => Err(ValueError("Ogiltig tid"))
    case Some(secs) =>
      var num :- ScoreboardNumber(st, input);
      var t := FormatMmss(secs);
      SettersOnResolved(st, num, clockField, t);
      Ok([Fn("StopCountdown", num, clockField),
          SetCountdown(st, ByName(num), clockField, t).value,
          SetText(st, ByName(num), clockField, t).value])
  }

  /** The text written reads back, with the strict parser as well as the
      permissive one, as the seconds the input text was read as. */
  lemma SetMatchTimeWritesReading(st: Status, input: string, clockField: string, timeText: string)
    requires SetMatchTime(st, input, clockField, timeText).Ok?
    ensures var calls := SetMatchTime(st, input, clockField, timeText).value;
      && ParseMmss(calls[2].params[2].1) == ParseClock(Some(timeText))
      && ParseClock(Some(calls[2].params[2].1)) == ParseClock(Some(timeText))
  {
    var secs := ParseClock(Some(timeText)).value;
    ClockAgreesWithStrict(FormatMmss(secs));
  }

  /** Setting the time from the text a previous call wrote issues the same
      calls again: the written text is already normal. */
  lemma SetMatchTimeIsStable(st: Status, input: string, clockField: string, timeText: string)
    requires ParseClock(Some(timeText)).Some?
    ensures SetMatchTime(st, input, clockField, FormatMmss(ParseClock(Some(timeText)).value))
      == SetMatchTime(st, input, clockField, timeText)
  {
    var secs := ParseClock(Some(timeText)).value;
    ClockAgreesWithStrict(FormatMmss(secs));
  }
}
