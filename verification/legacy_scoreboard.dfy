/** The match-clock and penalty engine of the legacy scoreboard controller
    (`legacy/scoreboard_controller.py`). The controller's own state is three
    things: whether it believes the clock runs, the clock seconds it last
    saw, and the seconds it last saw per penalty slot. Every operation takes
    that state and one status snapshot, and gives the new state with the
    ordered vMix calls it sends. vMix itself is not modelled: the snapshot
    is what the controller reads, the calls are what it writes. */
module LegacyScoreboard {
  import opened Wrappers
  import opened PyText
  import opened ScoreboardTime
  import opened VmixCall
  import opened LegacyClient
  import opened ScoreboardFields

  // ---------------------------------------------------------------
  // State and observations
  // ---------------------------------------------------------------

  /** `_clock_running_flag`, `_last_clock_secs`, `_last_penalty_secs`. */
  datatype EngineState = EngineState(
    running: bool, lastClock: Option<nat>, lastPenalty: map<string, Option<nat>>)

  /** The controller as constructed: stopped, nothing seen. */
  const Initial: EngineState := EngineState(false, None, map[])

  /** `_last_penalty_secs.get(slot)`. */
  function PrevOf(m: map<string, Option<nat>>, slot: string): Option<nat> {
    if slot in m then m[slot] else None
  }

  /** One entry of `get_state`'s `penalties`. */
  datatype PenaltyView = PenaltyView(
    slot: string, timeRaw: string, seconds: Option<nat>, active: bool, number: string)

  /** The dict `get_state` returns. */
  datatype StateView = StateView(
    clockRaw: string, clockSecs: Option<nat>, running: bool,
    homeScore: string, awayScore: string, period: string,
    penalties: seq<PenaltyView>)

  // ---------------------------------------------------------------
  // Call building blocks
  // ---------------------------------------------------------------

  /** The same function with `Input` and `SelectedName` on each field in
      turn. */
  function FnEach(fn: string, num: string, fields: seq<string>): (r: seq<Call>)
    ensures |r| == |fields|
    ensures forall i :: 0 <= i < |fields| ==> r[i] == Fn(fn, num, fields[i])
  {
    if |fields| == 0 then [] else [Fn(fn, num, fields[0])] + FnEach(fn, num, fields[1..])
  }

  /** Python `v or ""` on a field name. */
  function NameOr(v: Option<string>): (r: string)
    ensures Truthy(v) ==> r == v.value
    ensures !Truthy(v) ==> r == ""
  {
    if Truthy(v) then v.value else ""
  }

  /** The visibility switches of a slot: its time and number texts, then
      each background that is named. `sfx` is `"On"` or `"Off"`. */
  function VisibilityCalls(sfx: string, num: string, f: Fields): (r: seq<Call>)
    requires Truthy(f.time) && Truthy(f.number)
    ensures 2 <= |r| <= 4
    ensures r[0] == Fn("SetTextVisible" + sfx, num, f.time.value)
    ensures r[1] == Fn("SetTextVisible" + sfx, num, f.number.value)
  {
    [Fn("SetTextVisible" + sfx, num, f.time.value), Fn("SetTextVisible" + sfx, num, f.number.value)]
    + (if Truthy(f.timeBg) then [Fn("SetImageVisible" + sfx, num, f.timeBg.value)] else [])
    + (if Truthy(f.numberBg) then [Fn("SetImageVisible" + sfx, num, f.numberBg.value)] else [])
  }

  // ---------------------------------------------------------------
  // Observation of one snapshot
  // ---------------------------------------------------------------

  /** The view of one slot: the time text (`"00:00"` when the slot has no
      time field or the title lacks it), its seconds, whether they are
      positive, and the number text. */
  function SlotView(cfg: SbConfig, texts: map<string, string>, slot: string): (v: PenaltyView)
    ensures v.slot == slot
    ensures v.seconds == ParseMmss(v.timeRaw)
    ensures v.active <==> v.seconds.Some? && v.seconds.value > 0
    ensures !Truthy(PenaltyFields(cfg, slot).time) ==> v.timeRaw == "00:00"
    ensures Truthy(PenaltyFields(cfg, slot).time) ==> v.timeRaw == TGet(texts, PenaltyFields(cfg, slot).time.value, "00:00")
  {
    var f := PenaltyFields(cfg, slot);
    var raw := if Truthy(f.time) then TGet(texts, f.time.value, "00:00") else "00:00";
    var secs := ParseMmss(raw);
    PenaltyView(slot, raw, secs, secs.Some? && secs.value > 0, TGet(texts, NameOr(f.number), ""))
  }

  function Views(cfg: SbConfig, texts: map<string, string>, slots: seq<string>): (r: seq<PenaltyView>)
    ensures |r| == |slots|
    ensures forall i :: 0 <= i < |slots| ==> r[i] == SlotView(cfg, texts, slots[i])
  {
    if |slots| == 0 then [] else [SlotView(cfg, texts, slots[0])] + Views(cfg, texts, slots[1..])
  }

  // ---------------------------------------------------------------
  // clear_penalty and the auto-clear
  // ---------------------------------------------------------------

  /** The calls `clear_penalty` sends for a slot: nothing when the slot
      lacks a time or number field; otherwise stop the countdown, set it
      and its text to `00:00`, empty the number, and hide the slot. */
  function ClearCalls(cfg: SbConfig, num: string, slot: string): (r: seq<Call>)
    ensures var f := PenaltyFields(cfg, slot);
      !(Truthy(f.time) && Truthy(f.number)) <==> r == []
  {
    var f := PenaltyFields(cfg, slot);
    if !Truthy(f.time) || !Truthy(f.number) then []
    else
      [Fn("StopCountdown", num, f.time.value),
       FnV("SetCountdown", num, f.time.value, "00:00"),
       FnV("SetText", num, f.time.value, "00:00"),
       FnV("SetText", num, f.number.value, "")]
      + VisibilityCalls("Off", num, f)
  }

  /** `clear_penalty` once the scoreboard number is known. It records 0
      under the upper-cased slot, and only when it did clear. */
  function ClearAt(cfg: SbConfig, num: string, s: EngineState, slot: string): (r: (EngineState, seq<Call>))
    ensures r.1 == ClearCalls(cfg, num, slot)
    ensures r.0.running == s.running && r.0.lastClock == s.lastClock
    ensures r.1 == [] ==> r.0 == s
    ensures r.1 != [] ==> r.0.lastPenalty == s.lastPenalty[Upper(slot) := Some(0)]
  {
    var f := PenaltyFields(cfg, slot);
    if !Truthy(f.time) || !Truthy(f.number) then (s, [])
    else (s.(lastPenalty := s.lastPenalty[Upper(slot) := Some(0)]), ClearCalls(cfg, num, slot))
  }

  /** The auto-clear condition: the slot now reads exactly 0, it read more
      than 0 last time, and the clock does not read exactly 0. */
  predicate Fires(secs: Option<nat>, prev: Option<nat>, clock: Option<nat>) {
    secs == Some(0) && prev.Some? && prev.value > 0 && (clock.None? || clock.value > 0)
  }

  /** The auto-clear loop of `get_state`, over the slot views in order:
      a slot that fires is cleared and shown as `00:00`, and every slot's
      seconds are recorded as last seen. */
  function AutoClear(cfg: SbConfig, num: string, clock: Option<nat>, s: EngineState, views: seq<PenaltyView>)
    : (r: (EngineState, seq<PenaltyView>, seq<Call>))
    ensures r.0.running == s.running && r.0.lastClock == s.lastClock
    ensures |r.1| == |views|
    ensures forall i :: 0 <= i < |views| ==> r.1[i].slot == views[i].slot && r.1[i].seconds == views[i].seconds
    ensures (forall i :: 0 <= i < |views| ==> (views[i].active <==> views[i].seconds.Some? && views[i].seconds.value > 0))
      ==> forall i :: 0 <= i < |views| ==> (r.1[i].active <==> r.1[i].seconds.Some? && r.1[i].seconds.value > 0)
    ensures clock == Some(0) ==> r.1 == views && r.2 == []
    decreases |views|
  {
    if |views| == 0 then (s, [], [])
    else
      var v := views[0];
      var fire := Fires(v.seconds, PrevOf(s.lastPenalty, v.slot), clock);
      var (s1, c1) := if fire then ClearAt(cfg, num, s, v.slot) else (s, []);
      var v1 := if fire then v.(active := false, timeRaw := "00:00", seconds := Some(0)) else v;
      var s2 := s1.(lastPenalty := s1.lastPenalty[v.slot := v.seconds]);
      var (s3, vs, cs) := AutoClear(cfg, num, clock, s2, views[1..]);
      (s3, [v1] + vs, c1 + cs)
  }

  // ---------------------------------------------------------------
  // get_state
  // ---------------------------------------------------------------

  /** One reading of the title's text table: the clock (`"00:00"` when the
      field is missing), the flag forced off by a clock reading of 0, the
      scores and period, the slot views, and the auto-clear. */
  function Tick(cfg: SbConfig, num: string, texts: map<string, string>, s: EngineState)
    : (r: (EngineState, StateView, seq<Call>))
    ensures r.1.clockRaw == TGet(texts, cfg.clockField, "00:00")
    ensures r.1.clockSecs == ParseMmss(r.1.clockRaw)
    ensures r.1.clockSecs == Some(0) ==> !r.0.running && !r.1.running && r.2 == []
    ensures r.1.clockSecs != Some(0) ==> r.0.running == s.running
    ensures r.0.running == r.1.running && r.0.lastClock == r.1.clockSecs
  {
    var clockRaw := TGet(texts, cfg.clockField, "00:00");
    var clockSecs := ParseMmss(clockRaw);
    var running := if clockSecs == Some(0) then false else s.running;
    var views := Views(cfg, texts, SlotKeys(cfg));
    var (s2, vs, calls) := AutoClear(cfg, num, clockSecs, EngineState(running, clockSecs, s.lastPenalty), views);
    (s2,
     StateView(clockRaw, clockSecs, running,
               TGet(texts, cfg.homeScoreField, ""), TGet(texts, cfg.awayScoreField, ""),
               TGet(texts, cfg.periodField, ""), vs),
     calls)
  }

  /** The scoreboard input: its number, then the first input carrying that
      number, each a `RuntimeError` when missing. */
  function SbNode(cfg: SbConfig, st: Status): (r: Result<(string, InputNode)>)
    ensures r.Ok? ==> ScoreboardNumber(st, cfg.input) == Ok(r.value.0) && r.value.1 in st.inputs
    ensures r.Ok? ==> NumberText(r.value.1) == r.value.0
    ensures ScoreboardNumber(st, cfg.input).Err? ==> r == Err(ScoreboardNumber(st, cfg.input).error)
    ensures r.Err? && ScoreboardNumber(st, cfg.input).Ok? ==>
      forall i :: 0 <= i < |st.inputs| ==> NumberText(st.inputs[i]) != ScoreboardNumber(st, cfg.input).value
  {
    var num :- ScoreboardNumber(st, cfg.input);
    match FirstWithNumber(st.inputs, num, 0)
    case None => Err(RuntimeError("Kunde inte hitta SCOREBOARD-input i XML."))
    case Some(i) => Ok((num, st.inputs[i]))
  }

  /** `get_state`. */
  function GetState(cfg: SbConfig, st: Status, s: EngineState): (r: Result<(EngineState, StateView, seq<Call>)>)
    ensures r.Err? <==> SbNode(cfg, st).Err?
    ensures r.Ok? ==>
      r.value == Tick(cfg, SbNode(cfg, st).value.0, TextTable(SbNode(cfg, st).value.1.texts), s)
  {
    var (num, node) :- SbNode(cfg, st);
    Ok(Tick(cfg, num, TextTable(node.texts), s))
  }

  // ---------------------------------------------------------------
  // Start, stop, pause
  // ---------------------------------------------------------------

  /** The time fields of the slots whose seconds are positive and that
      have a time field, in slot order: the penalties that run with the
      clock. */
  function LiveTimeFields(cfg: SbConfig, views: seq<PenaltyView>): (r: seq<string>)
    ensures |r| <= |views|
  {
    if |views| == 0 then []
    else
      var f := PenaltyFields(cfg, views[0].slot);
      (if views[0].seconds.Some? && views[0].seconds.value > 0 && Truthy(f.time) then [f.time.value] else [])
      + LiveTimeFields(cfg, views[1..])
  }

  /** The time fields of every configured slot that has one. */
  function ConfiguredTimeFields(cfg: SbConfig, slots: seq<string>): (r: seq<string>)
    ensures |r| <= |slots|
  {
    if |slots| == 0 then []
    else
      var f := PenaltyFields(cfg, slots[0]);
      (if Truthy(f.time) then [f.time.value] else []) + ConfiguredTimeFields(cfg, slots[1..])
  }

  /** `toggle_clock` after its `get_state`: when running, pause the clock
      and the live penalties and stop; when stopped at no time or zero,
      do nothing; otherwise start the clock and the live penalties. */
  function ToggleAfter(cfg: SbConfig, num: string, s: EngineState, v: StateView): (r: (EngineState, seq<Call>))
    ensures s.running ==> (r.0 == s.(running := false)
      && r.1 == FnEach("PauseCountdown", num, [cfg.clockField] + LiveTimeFields(cfg, v.penalties)))
    ensures !s.running && (v.clockSecs.None? || v.clockSecs.value <= 0) ==> r.0 == s && r.1 == []
    ensures !s.running && v.clockSecs.Some? && v.clockSecs.value > 0 ==> (r.0 == s.(running := true)
      && r.1 == FnEach("StartCountdown", num, [cfg.clockField] + LiveTimeFields(cfg, v.penalties)))
  {
    if s.running then
      (s.(running := false), FnEach("PauseCountdown", num, [cfg.clockField] + LiveTimeFields(cfg, v.penalties)))
    else if v.clockSecs.None? || v.clockSecs.value <= 0 then
      (s.(running := false), [])
    else
      (s.(running := true), FnEach("StartCountdown", num, [cfg.clockField] + LiveTimeFields(cfg, v.penalties)))
  }

  /** `toggle_clock`: a `get_state` tick, then the toggle on its result. */
  function Toggle(cfg: SbConfig, st: Status, s: EngineState): (r: Result<(EngineState, seq<Call>)>)
    ensures r.Err? <==> GetState(cfg, st, s).Err?
    ensures r.Ok? ==>
      var (s1, v, c0) := GetState(cfg, st, s).value;
      var (s2, c1) := ToggleAfter(cfg, SbNode(cfg, st).value.0, s1, v);
      r.value == (s2, c0 + c1)
  {
    var (num, node) :- SbNode(cfg, st);
    var (s1, v, c0) := Tick(cfg, num, TextTable(node.texts), s);
    var (s2, c1) := ToggleAfter(cfg, num, s1, v);
    Ok((s2, c0 + c1))
  }

  /** `stop_clock_and_penalties_at_zero` after its tick: nothing unless the
      clock reads exactly 0; then stop the clock, pause every configured
      penalty that has a time field, and clear the flag. */
  function StopAtZeroAfter(cfg: SbConfig, num: string, s: EngineState, v: StateView): (r: (EngineState, seq<Call>))
    ensures v.clockSecs != Some(0) ==> r == (s, [])
    ensures v.clockSecs == Some(0) ==> (r.0 == s.(running := false)
      && r.1 == [Fn("StopCountdown", num, cfg.clockField)]
                + FnEach("PauseCountdown", num, ConfiguredTimeFields(cfg, SlotKeys(cfg))))
  {
    if v.clockSecs != Some(0) then (s, [])
    else
      (s.(running := false),
       [Fn("StopCountdown", num, cfg.clockField)] + FnEach("PauseCountdown", num, ConfiguredTimeFields(cfg, SlotKeys(cfg))))
  }

  /** `stop_clock_and_penalties_at_zero`. */
  function StopAtZero(cfg: SbConfig, st: Status, s: EngineState): (r: Result<(EngineState, seq<Call>)>)
    ensures r.Err? <==> GetState(cfg, st, s).Err?
    ensures r.Ok? ==>
      var (s1, v, c0) := GetState(cfg, st, s).value;
      var (s2, c1) := StopAtZeroAfter(cfg, SbNode(cfg, st).value.0, s1, v);
      r.value == (s2, c0 + c1)
  {
    var (num, node) :- SbNode(cfg, st);
    var (s1, v, c0) := Tick(cfg, num, TextTable(node.texts), s);
    var (s2, c1) := StopAtZeroAfter(cfg, num, s1, v);
    Ok((s2, c0 + c1))
  }

  /** `pause_clock_and_penalties`: after the tick, pause the clock whatever
      it reads, pause the live penalties, and clear the flag. */
  function Pause(cfg: SbConfig, st: Status, s: EngineState): (r: Result<(EngineState, seq<Call>)>)
    ensures r.Err? <==> GetState(cfg, st, s).Err?
    ensures r.Ok? ==>
      var (s1, v, c0) := GetState(cfg, st, s).value;
      r.value == (s1.(running := false),
                  c0 + FnEach("PauseCountdown", SbNode(cfg, st).value.0, [cfg.clockField] + LiveTimeFields(cfg, v.penalties)))
  {
    var (num, node) :- SbNode(cfg, st);
    var (s1, v, c0) := Tick(cfg, num, TextTable(node.texts), s);
    Ok((s1.(running := false), c0 + FnEach("PauseCountdown", num, [cfg.clockField] + LiveTimeFields(cfg, v.penalties))))
  }

  // ---------------------------------------------------------------
  // Adjustment
  // ---------------------------------------------------------------

  /** The field's current text, as `get_text_from_title` reads it, is a
      strictly positive time. */
  predicate PositiveTime(st: Status, num: string, field: string) {
    var secs := ParseMmss(GetTextFromTitle(st, ByName(num), field));
    secs.Some? && secs.value > 0
  }

  /** The fields among `fields` that hold a positive time, in order. */
  function PositiveFields(st: Status, num: string, fields: seq<string>): (r: seq<string>)
    ensures |r| <= |fields|
    ensures forall i :: 0 <= i < |r| ==> r[i] in fields && PositiveTime(st, num, r[i])
    ensures forall i :: 0 <= i < |fields| && PositiveTime(st, num, fields[i]) ==> fields[i] in r
  {
    if |fields| == 0 then []
    else
      var rest := PositiveFields(st, num, fields[1..]);
      assert forall i :: 1 <= i < |fields| ==> fields[i] == fields[1..][i - 1];
      (if PositiveTime(st, num, fields[0]) then [fields[0]] else []) + rest
  }

  /** `AdjustCountdown` with the same value on each field in turn. */
  function AdjustEach(num: string, fields: seq<string>, value: string): (r: seq<Call>)
    ensures |r| == |fields|
    ensures forall i :: 0 <= i < |fields| ==> r[i] == FnV("AdjustCountdown", num, fields[i], value)
  {
    if |fields| == 0 then [] else [FnV("AdjustCountdown", num, fields[0], value)] + AdjustEach(num, fields[1..], value)
  }

  /** `adjust_times`: nothing at all for a zero delta; otherwise an
      `AdjustCountdown` by the delta on the clock and on each penalty time
      field, each only when its current text is a positive time. No state
      changes. */
  function AdjustTimes(cfg: SbConfig, st: Status, delta: int): (r: Result<seq<Call>>)
    ensures delta == 0 ==> r == Ok([])
    ensures delta != 0 ==> (r.Err? <==> ScoreboardNumber(st, cfg.input).Err?)
    ensures delta != 0 && r.Ok? ==>
      var num := ScoreboardNumber(st, cfg.input).value;
      r.value == AdjustEach(num, PositiveFields(st, num, [cfg.clockField] + ConfiguredTimeFields(cfg, SlotKeys(cfg))),
                            IntToString(delta))
  {
    if delta == 0 then Ok([])
    else
      var num :- ScoreboardNumber(st, cfg.input);
      Ok(AdjustEach(num, PositiveFields(st, num, [cfg.clockField] + ConfiguredTimeFields(cfg, SlotKeys(cfg))),
                    IntToString(delta)))
  }

  // ---------------------------------------------------------------
  // Setting the match time and the score
  // ---------------------------------------------------------------

  /** `set_match_time`: an unparseable time is a `ValueError` before
      anything else; then the countdown is stopped and set, its text
      written with the normalised time, and the clock recorded as stopped
      at that time. */
  function SetMatchTime(cfg: SbConfig, st: Status, s: EngineState, timeText: string)
    : (r: Result<(EngineState, seq<Call>)>)
    ensures ParseMmss(timeText).None? ==> r.Err? && r.error.ValueError?
    ensures ParseMmss(timeText).Some? ==> (r.Err? <==> ScoreboardNumber(st, cfg.input).Err?)
    ensures r.Ok? ==>
      var num := ScoreboardNumber(st, cfg.input).value;
      var secs := ParseMmss(timeText).value;
      && r.value.0 == s.(lastClock := Some(secs), running := false)
      && r.value.1 == [Fn("StopCountdown", num, cfg.clockField),
                       FnV("SetCountdown", num, cfg.clockField, FormatMmss(secs)),
                       FnV("SetText", num, cfg.clockField, FormatMmss(secs))]
  {
    match ParseMmss(timeText)
    case None => Err(ValueError("Ogiltig matchtid"))
    case Some(secs) =>
      var num :- ScoreboardNumber(st, cfg.input);
      var t := FormatMmss(secs);
      SettersOnResolved(st, num, cfg.clockField, t);
      Ok((s.(lastClock := Some(secs), running := false),
          [Fn("StopCountdown", num, cfg.clockField),
           SetCountdown(st, ByName(num), cfg.clockField, t).value,
           SetText(st, ByName(num), cfg.clockField, t).value]))
  }

  /** `_change_score`: the field's current text read as an integer (0 when
      it is not one), moved by `delta`, floored at 0, written and returned. */
  function ChangeScore(cfg: SbConfig, st: Status, field: string, delta: int): (r: Result<(Call, nat)>)
    ensures r.Err? <==> ScoreboardNumber(st, cfg.input).Err?
    ensures r.Ok? ==>
      var cur := IntOrZero(GetTextFromTitle(st, ByName(cfg.input), field));
      && r.value.1 >= cur + delta
      && (cur + delta >= 0 ==> r.value.1 == cur + delta)
      && (cur + delta <= 0 ==> r.value.1 == 0)
      && r.value.0 == FnV("SetText", ScoreboardNumber(st, cfg.input).value, field, IntToString(r.value.1))
  {
    var num :- ScoreboardNumber(st, cfg.input);
    TextThroughResolved(st, cfg.input, field);
    var cur := IntOrZero(Strip(GetTextFromTitle(st, ByName(num), field)));
    StripIdempotent(GetTextFromTitle(st, ByName(num), field));
    var n: nat := if cur + delta > 0 then cur + delta else 0;
    SettersOnResolved(st, num, field, IntToString(n));
    Ok((SetText(st, ByName(num), field, IntToString(n)).value, n))
  }

  /** `home_goal` and `away_goal`: one more on the configured score field. */
  function HomeGoal(cfg: SbConfig, st: Status): (r: Result<(Call, nat)>)
    ensures r.Err? <==> ScoreboardNumber(st, cfg.input).Err?
    ensures r.Ok? ==> r.value.0 == FnV("SetText", ScoreboardNumber(st, cfg.input).value, cfg.homeScoreField, IntToString(r.value.1))
  {
    ChangeScore(cfg, st, cfg.homeScoreField, 1)
  }

  function AwayGoal(cfg: SbConfig, st: Status): (r: Result<(Call, nat)>)
    ensures r.Err? <==> ScoreboardNumber(st, cfg.input).Err?
    ensures r.Ok? ==> r.value.0 == FnV("SetText", ScoreboardNumber(st, cfg.input).value, cfg.awayScoreField, IntToString(r.value.1))
  {
    ChangeScore(cfg, st, cfg.awayScoreField, 1)
  }

  // ---------------------------------------------------------------
  // Penalties
  // ---------------------------------------------------------------

  /** `set_penalty`. The slot is upper-cased; a slot without a time or
      number field and an unparseable time are each a `ValueError` before
      any call. Then the countdown is stopped, set and its text written
      with the normalised time, the number written, the slot shown, the
      countdown started only when the clock is believed to run and the
      time is positive, and the seconds recorded. The player's name is not
      shown on this scoreboard. */
  function SetPenalty(cfg: SbConfig, st: Status, s: EngineState, slot: string, number: string, name: string, timeText: string)
    : (r: Result<(EngineState, seq<Call>)>)
    ensures var f := PenaltyFields(cfg, slot);
      !(Truthy(f.time) && Truthy(f.number)) ==> r.Err? && r.error.ValueError?
    ensures ParseMmss(timeText).None? ==> r.Err? && r.error.ValueError?
    ensures var f := PenaltyFields(cfg, slot);
      Truthy(f.time) && Truthy(f.number) && ParseMmss(timeText).Some? ==>
      (r.Err? <==> ScoreboardNumber(st, cfg.input).Err?)
    ensures r.Ok? ==>
      var f := PenaltyFields(cfg, slot);
      var num := ScoreboardNumber(st, cfg.input).value;
      var secs := ParseMmss(timeText).value;
      && Truthy(f.time) && Truthy(f.number)
      && r.value.0 == s.(lastPenalty := s.lastPenalty[Upper(slot) := Some(secs)])
      && r.value.1 ==
        [Fn("StopCountdown", num, f.time.value),
         FnV("SetCountdown", num, f.time.value, FormatMmss(secs)),
         FnV("SetText", num, f.time.value, FormatMmss(secs)),
         FnV("SetText", num, f.number.value, number)]
        + VisibilityCalls("On", num, f)
        + (if s.running && secs > 0 then [Fn("StartCountdown", num, f.time.value)] else [])
  {
    var slotU := Upper(slot);
    PenaltyFieldsIgnoreCase(cfg, slot);
    var f := PenaltyFields(cfg, slotU);
    if !Truthy(f.time) || !Truthy(f.number) then
      Err(ValueError("Felfält för utvisning " + slotU + ": saknar time/number_field"))
    else match ParseMmss(timeText)
      case None => Err(ValueError("Ogiltig utvisningstid"))
      case Some(secs) =>
        var t := FormatMmss(secs);
        var num :- ScoreboardNumber(st, cfg.input);
        SettersOnResolved(st, num, f.time.value, t);
        SettersOnResolved(st, num, f.number.value, number);
        Ok((s.(lastPenalty := s.lastPenalty[slotU := Some(secs)]),
            [Fn("StopCountdown", num, f.time.value),
             FnV("SetCountdown", num, f.time.value, t),
             SetText(st, ByName(num), f.time.value, t).value,
             SetText(st, ByName(num), f.number.value, number).value]
            + VisibilityCalls("On", num, f)
            + (if s.running && secs > 0 then [Fn("StartCountdown", num, f.time.value)] else [])))
  }

  /** `clear_penalty`: a slot without a time or number field is left alone
      without even resolving the input; otherwise it is cleared. */
  function ClearPenalty(cfg: SbConfig, st: Status, s: EngineState, slot: string): (r: Result<(EngineState, seq<Call>)>)
    ensures var f := PenaltyFields(cfg, slot);
      !(Truthy(f.time) && Truthy(f.number)) ==> r == Ok((s, []))
    ensures var f := PenaltyFields(cfg, slot);
      Truthy(f.time) && Truthy(f.number) ==> (r.Err? <==> ScoreboardNumber(st, cfg.input).Err?)
    ensures r.Ok? && ScoreboardNumber(st, cfg.input).Ok? ==>
      r.value == ClearAt(cfg, ScoreboardNumber(st, cfg.input).value, s, slot)
  {
    var slotU := Upper(slot);
    PenaltyFieldsIgnoreCase(cfg, slot);
    UpperIdempotent(slot);
    var f := PenaltyFields(cfg, slotU);
    if !Truthy(f.time) || !Truthy(f.number) then Ok((s, []))
    else
      var num :- ScoreboardNumber(st, cfg.input);
      Ok(ClearAt(cfg, num, s, slotU))
  }

  // ---------------------------------------------------------------
  // Overlay state
  // ---------------------------------------------------------------

  /** Whether one `<overlay>` entry shows the scoreboard on the channel. */
  predicate ShowsOn(ov: OverlayNode, channel: int, num: string) {
    ov.number == IntToString(channel) && Strip(ov.text) == num
  }

  function AnyShows(ovs: seq<OverlayNode>, channel: int, num: string): (b: bool)
    ensures b <==> exists i :: 0 <= i < |ovs| && ShowsOn(ovs[i], channel, num)
  {
    if |ovs| == 0 then false
    else if ShowsOn(ovs[0], channel, num) then true
    else
      assert forall i :: 0 < i < |ovs| ==> ovs[i] == ovs[1..][i - 1];
      AnyShows(ovs[1..], channel, num)
  }

  /** `is_scoreboard_overlay_active`: whether some overlay entry numbered
      as the configured channel holds the scoreboard's number; false when
      the status has no overlays. */
  function IsScoreboardOverlayActive(cfg: SbConfig, st: Status): (r: Result<bool>)
    ensures r.Err? <==> ScoreboardNumber(st, cfg.input).Err?
    ensures r.Ok? ==> (r.value <==>
      && st.overlays.Some?
      && exists i :: 0 <= i < |st.overlays.value|
           && ShowsOn(st.overlays.value[i], cfg.overlayChannel, ScoreboardNumber(st, cfg.input).value))
  {
    var num :- ScoreboardNumber(st, cfg.input);
    match st.overlays
    case None => Ok(false)
    case Some(ovs) => Ok(AnyShows(ovs, cfg.overlayChannel, num))
  }

  // ---------------------------------------------------------------
  // Period text, overlay and empty net
  // ---------------------------------------------------------------

  /** `set_period`: the value written as it is to the period field. */
  function SetPeriod(cfg: SbConfig, st: Status, value: string): (r: Result<Call>)
    ensures r.Err? <==> ScoreboardNumber(st, cfg.input).Err?
    ensures r.Ok? ==> r.value == FnV("SetText", ScoreboardNumber(st, cfg.input).value, cfg.periodField, value)
  {
    var num :- ScoreboardNumber(st, cfg.input);
    SettersOnResolved(st, num, cfg.periodField, value);
    SetText(st, ByName(num), cfg.periodField, value)
  }

  /** `set_scoreboard_overlay`: the scoreboard put in or taken out of the
      configured overlay channel. */
  function SetScoreboardOverlay(cfg: SbConfig, st: Status, visible: bool): (r: Result<Call>)
    ensures r.Err? <==> ScoreboardNumber(st, cfg.input).Err?
    ensures r.Ok? ==> r.value.params == [("Input", ScoreboardNumber(st, cfg.input).value)]
  {
    var num :- ScoreboardNumber(st, cfg.input);
    Ok(Call("OverlayInput" + IntToString(cfg.overlayChannel) + (if visible then "In" else "Out"), [("Input", num)]))
  }

  /** `set_empty_net_home` / `set_empty_net_away`: nothing at all when the
      side has no text field (the scoreboard is not even looked up);
      otherwise the text made visible or hidden, and the background image
      too when one is configured. */
  function SetEmptyNet(cfg: SbConfig, st: Status, home: bool, visible: bool): (r: Result<seq<Call>>)
  {
    var field := if home then cfg.homeEmptyField else cfg.awayEmptyField;
    var bg := if home then cfg.homeEmptyBgField else cfg.awayEmptyBgField;
    if !Truthy(field) then Ok([])
    else
      var num :- ScoreboardNumber(st, cfg.input);
      Ok([Fn(if visible then "SetTextVisibleOn" else "SetTextVisibleOff", num, field.value)]
         + (if Truthy(bg) then [Fn(if visible then "SetImageVisibleOn" else "SetImageVisibleOff", num, bg.value)] else []))
  }

  /** The overlay switch names the configured channel, with `In` to show
      and `Out` to hide, and is the call `overlay_on` / `overlay_off` make. */
  lemma OverlaySwitch(cfg: SbConfig, st: Status, visible: bool)
    requires ScoreboardNumber(st, cfg.input).Ok?
    ensures var num := ScoreboardNumber(st, cfg.input).value;
      && SetScoreboardOverlay(cfg, st, visible) == Overlay(st, ByName(num), cfg.overlayChannel, visible)
      && SetScoreboardOverlay(cfg, st, visible).value.fn
         == "OverlayInput" + IntToString(cfg.overlayChannel) + (if visible then "In" else "Out")
    ensures SetScoreboardOverlay(cfg, st, true).value.fn != SetScoreboardOverlay(cfg, st, false).value.fn
  {
    var num := ScoreboardNumber(st, cfg.input).value;
    ResolvedNumberIsStable(st, num);
    var pre := "OverlayInput" + IntToString(cfg.overlayChannel);
    assert (pre + "In")[|pre| + 1] == 'n' && (pre + "Out")[|pre| + 1] == 'u';
  }

  /** An unconfigured side is a no-op even without a scoreboard input; a
      configured one raises exactly when the scoreboard is missing, and
      shows and hides the same fields, text first, with the background only
      when one is configured. */
  lemma EmptyNetSpec(cfg: SbConfig, st: Status, home: bool, visible: bool)
    ensures var field := if home then cfg.homeEmptyField else cfg.awayEmptyField;
      !Truthy(field) ==> SetEmptyNet(cfg, st, home, visible) == Ok([])
    ensures var field := if home then cfg.homeEmptyField else cfg.awayEmptyField;
      Truthy(field) ==> (SetEmptyNet(cfg, st, home, visible).Err? <==> ScoreboardNumber(st, cfg.input).Err?)
    ensures var field := if home then cfg.homeEmptyField else cfg.awayEmptyField;
      var bg := if home then cfg.homeEmptyBgField else cfg.awayEmptyBgField;
      var r := SetEmptyNet(cfg, st, home, visible);
      Truthy(field) && r.Ok? ==>
        && |r.value| == (if Truthy(bg) then 2 else 1)
        && r.value[0].params == [("Input", ScoreboardNumber(st, cfg.input).value), ("SelectedName", field.value)]
        && (Truthy(bg) ==> r.value[1].params == [("Input", ScoreboardNumber(st, cfg.input).value), ("SelectedName", bg.value)])
        && (forall i :: 0 <= i < |r.value| ==>
              r.value[i].params == SetEmptyNet(cfg, st, home, !visible).value[i].params)
  {
  }
}
