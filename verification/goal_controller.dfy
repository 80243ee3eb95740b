/** `GoalController` of `controllers/goal_controller.py`: goal counters and
    empty-goal flags per side, written to the scoreboard through the
    client, with the after-goal graphic shown when the configuration
    enables it. Field names come from `cfg["goal"]`. */
module GoalControl {
  import opened Wrappers
  import opened PyText
  import opened JsonDict
  import opened AppClient

  datatype Goals = Goals(homeGoals: nat, awayGoals: nat, homeEmpty: bool, awayEmpty: bool)

  const Initial := Goals(0, 0, false, false)

  /** The calls a helper made and the exception it raised, if any. */
  datatype Effect = Effect(calls: seq<ClientCall>, error: Option<Error>)

  /** `_get_field`: `cfg["goal"][side][field]`, any failure reported as
      `ValueError`. */
  function GetField(cfg: Json, side: string, field: string): (r: Result<Json>)
    ensures r.Ok? <==> Path(cfg, ["goal", side, field]).Some?
    ensures r.Ok? ==> r.value == Path(cfg, ["goal", side, field]).value
    ensures r.Err? ==> r.error.ValueError?
  {
    match GetPath(cfg, ["goal", side, field])
    case Ok(v) => Ok(v)
    case Err(_) => Err(ValueError("GoalController missing config field"))
  }

  /** `_update_scoreboard_field` and `_update_empty_goal`: one `set_text` on
      `cfg["goal"]["scoreboard_input"]`, a client failure re-raised as
      `RuntimeError`. */
  function WriteSide(cfg: Json, side: string, field: string, value: string, refuses: set<ClientCall>): Effect {
    match GetField(cfg, side, field)
    case Err(e) => Effect([], Some(e))
    case Ok(name) =>
      match GetPath(cfg, ["goal", "scoreboard_input"])
      case Err(e) => Effect([], Some(e))
      case Ok(input) =>
        var c := SetText(input, name, value);
        Effect([c], if c in refuses then Some(RuntimeError("Failed to set scoreboard field")) else None)
  }

  /** `_show_after_goal_graphic`: nothing unless
      `cfg["goal"].get("after_goal_enabled", False)` is truthy, then
      `overlay_show(cfg["goal"]["after_goal_input"])`. */
  function ShowAfterGoal(cfg: Json, refuses: set<ClientCall>): Effect {
    match GetItem(cfg, "goal")
    case Err(e) => Effect([], Some(e))
    case Ok(g) =>
      match GetOr(g, "after_goal_enabled", JBool(false))
      case Err(e) => Effect([], Some(e))
      case Ok(enabled) =>
        if !Truthy(enabled) then Effect([], None)
        else
          match GetItem(g, "after_goal_input")
          case Err(e) => Effect([], Some(e))
          case Ok(key) =>
            var c := OverlayShow(key);
            Effect([c], if c in refuses then Some(RuntimeError("After-goal graphic failed")) else None)
  }

  /** `goal_home` / `goal_away`: the counter goes up first, then the
      scoreboard is written, then the graphic follows when asked for. */
  function Goal(s: Goals, cfg: Json, home: bool, afterGraphic: bool, refuses: set<ClientCall>): Outcome<Goals> {
    var s' := if home then s.(homeGoals := s.homeGoals + 1) else s.(awayGoals := s.awayGoals + 1);
    var n := if home then s'.homeGoals else s'.awayGoals;
    var w := WriteSide(cfg, if home then "home" else "away", "score_field", NatToString(n), refuses);
    if w.error.Some? || !afterGraphic then Outcome(s', w.calls, w.error)
    else
      var g := ShowAfterGoal(cfg, refuses);
      Outcome(s', w.calls + g.calls, g.error)
  }

  function GoalHome(s: Goals, cfg: Json, afterGraphic: bool, refuses: set<ClientCall>): Outcome<Goals> {
    Goal(s, cfg, true, afterGraphic, refuses)
  }

  function GoalAway(s: Goals, cfg: Json, afterGraphic: bool, refuses: set<ClientCall>): Outcome<Goals> {
    Goal(s, cfg, false, afterGraphic, refuses)
  }

  function OnOff(state: bool): string {
    if state then "ON" else "OFF"
  }

  /** `toggle_empty_goal(side)`. */
  function ToggleEmptyGoal(s: Goals, cfg: Json, side: string, refuses: set<ClientCall>): Outcome<Goals> {
    if side == "home" then
      var s' := s.(homeEmpty := !s.homeEmpty);
      var w := WriteSide(cfg, "home", "empty_goal_field", OnOff(s'.homeEmpty), refuses);
      Outcome(s', w.calls, w.error)
    else if side == "away" then
      var s' := s.(awayEmpty := !s.awayEmpty);
      var w := WriteSide(cfg, "away", "empty_goal_field", OnOff(s'.awayEmpty), refuses);
      Outcome(s', w.calls, w.error)
    else Outcome(s, [], Some(ValueError("toggle_empty_goal: side must be 'home' or 'away'")))
  }

  // ---------------------------------------------------------------
  // Properties
  // ---------------------------------------------------------------

  /** The scoreboard write when every configuration entry is there and
      the client accepts it. */
  predicate Wrote(cfg: Json, side: string, field: string, value: string, calls: seq<ClientCall>) {
    && Path(cfg, ["goal", side, field]).Some?
    && Path(cfg, ["goal", "scoreboard_input"]).Some?
    && |calls| >= 1
    && calls[0] == SetText(Path(cfg, ["goal", "scoreboard_input"]).value, Path(cfg, ["goal", side, field]).value, value)
  }

  /** A home goal adds exactly one to the home counter and changes nothing
      else, whether or not the write then fails; the value written reads
      back as the new counter. */
  lemma GoalHomeCounts(s: Goals, cfg: Json, afterGraphic: bool, refuses: set<ClientCall>)
    ensures GoalHome(s, cfg, afterGraphic, refuses).state == s.(homeGoals := s.homeGoals + 1)
    ensures var o := GoalHome(s, cfg, afterGraphic, refuses);
      o.error.None? ==> Wrote(cfg, "home", "score_field", NatToString(s.homeGoals + 1), o.calls)
    ensures ParseInt(NatToString(s.homeGoals + 1)) == Some(s.homeGoals + 1)
  {
    ParseNatToString(s.homeGoals + 1);
  }

  lemma GoalAwayCounts(s: Goals, cfg: Json, afterGraphic: bool, refuses: set<ClientCall>)
    ensures GoalAway(s, cfg, afterGraphic, refuses).state == s.(awayGoals := s.awayGoals + 1)
    ensures var o := GoalAway(s, cfg, afterGraphic, refuses);
      o.error.None? ==> Wrote(cfg, "away", "score_field", NatToString(s.awayGoals + 1), o.calls)
    ensures ParseInt(NatToString(s.awayGoals + 1)) == Some(s.awayGoals + 1)
  {
    ParseNatToString(s.awayGoals + 1);
  }

  /** A refused scoreboard write raises `RuntimeError` and the counter
      stays incremented. */
  lemma FailedWriteKeepsGoal(s: Goals, cfg: Json, afterGraphic: bool, refuses: set<ClientCall>)
    requires Path(cfg, ["goal", "home", "score_field"]).Some? && Path(cfg, ["goal", "scoreboard_input"]).Some?
    requires SetText(Path(cfg, ["goal", "scoreboard_input"]).value, Path(cfg, ["goal", "home", "score_field"]).value,
                     NatToString(s.homeGoals + 1)) in refuses
    ensures var o := GoalHome(s, cfg, afterGraphic, refuses);
      && o.error.Some? && o.error.value.RuntimeError?
      && o.state.homeGoals == s.homeGoals + 1
      && |o.calls| == 1
  {
  }

  /** A missing score field raises `ValueError` before any call. */
  lemma MissingFieldRaises(s: Goals, cfg: Json, afterGraphic: bool, refuses: set<ClientCall>)
    requires Path(cfg, ["goal", "home", "score_field"]).None?
    ensures var o := GoalHome(s, cfg, afterGraphic, refuses);
      o.error.Some? && o.error.value.ValueError? && o.calls == []
  {
  }

  /** The after-goal graphic follows the score write only when asked for
      and enabled in the configuration. */
  lemma AfterGoalGating(s: Goals, cfg: Json, afterGraphic: bool, refuses: set<ClientCall>)
    requires GoalHome(s, cfg, afterGraphic, refuses).error.None?
    ensures cfg.JObj? && "goal" in Keys(cfg.fields) && Lookup(cfg.fields, "goal").value.JObj?
    ensures var o := GoalHome(s, cfg, afterGraphic, refuses);
      var enabled := GetOr(Lookup(cfg.fields, "goal").value, "after_goal_enabled", JBool(false)).value;
      && (|o.calls| == 1 || |o.calls| == 2)
      && (|o.calls| == 2 <==> afterGraphic && Truthy(enabled))
      && (|o.calls| == 2 ==> o.calls[1] == OverlayShow(Path(cfg, ["goal", "after_goal_input"]).value))
  {
    var w := WriteSide(cfg, "home", "score_field", NatToString(s.homeGoals + 1), refuses);
    WriteSideOk(cfg, "home", "score_field", NatToString(s.homeGoals + 1), refuses);
    if afterGraphic {
      ShowAfterGoalOk(cfg, refuses);
    }
  }

  /** A write that raised nothing found both configuration entries and
      made exactly its one call. */
  lemma WriteSideOk(cfg: Json, side: string, field: string, value: string, refuses: set<ClientCall>)
    requires WriteSide(cfg, side, field, value, refuses).error.None?
    ensures cfg.JObj? && "goal" in Keys(cfg.fields) && Lookup(cfg.fields, "goal").value.JObj?
    ensures |WriteSide(cfg, side, field, value, refuses).calls| == 1
  {
    var p := Path(cfg, ["goal", side, field]);
    assert p.Some?;
    assert ["goal", side, field][1..] == [side, field];
  }

  /** With `cfg["goal"]` a dict, the graphic is shown exactly when
      `after_goal_enabled` is truthy, on `after_goal_input`. */
  lemma ShowAfterGoalOk(cfg: Json, refuses: set<ClientCall>)
    requires cfg.JObj? && "goal" in Keys(cfg.fields) && Lookup(cfg.fields, "goal").value.JObj?
    ensures var e := ShowAfterGoal(cfg, refuses);
      var enabled := GetOr(Lookup(cfg.fields, "goal").value, "after_goal_enabled", JBool(false)).value;
      && (e.error.None? ==> (|e.calls| == 1 <==> Truthy(enabled)) && |e.calls| <= 1)
      && (e.error.None? && |e.calls| == 1 ==> e.calls[0] == OverlayShow(Path(cfg, ["goal", "after_goal_input"]).value))
  {
    assert ["goal", "after_goal_input"][1..] == ["after_goal_input"];
    assert ["after_goal_input"][1..] == [];
  }

  /** Toggling flips only the named side and writes ON or OFF to match. */
  lemma ToggleFlipsSide(s: Goals, cfg: Json, side: string, refuses: set<ClientCall>)
    ensures var o := ToggleEmptyGoal(s, cfg, side, refuses);
      && (side == "home" ==> o.state == s.(homeEmpty := !s.homeEmpty))
      && (side == "away" ==> o.state == s.(awayEmpty := !s.awayEmpty))
      && (side == "home" && o.error.None? ==> Wrote(cfg, "home", "empty_goal_field", OnOff(!s.homeEmpty), o.calls))
      && (side == "away" && o.error.None? ==> Wrote(cfg, "away", "empty_goal_field", OnOff(!s.awayEmpty), o.calls))
  {
    if side == "away" {
      assert side != "home" by { assert side[1] == 'w'; }
    }
  }

  /** Any other side raises `ValueError` and changes nothing. */
  lemma ToggleRejectsOtherSide(s: Goals, cfg: Json, side: string, refuses: set<ClientCall>)
    requires side != "home" && side != "away"
    ensures ToggleEmptyGoal(s, cfg, side, refuses) == Outcome(s, [], Some(ValueError("toggle_empty_goal: side must be 'home' or 'away'")))
  {
  }

  /** Toggling a side twice restores the flags, whatever the client did. */
  lemma ToggleTwice(s: Goals, cfg: Json, side: string, r1: set<ClientCall>, r2: set<ClientCall>)
    ensures ToggleEmptyGoal(ToggleEmptyGoal(s, cfg, side, r1).state, cfg, side, r2).state == s
  {
    ToggleFlipsSide(s, cfg, side, r1);
    ToggleFlipsSide(ToggleEmptyGoal(s, cfg, side, r1).state, cfg, side, r2);
  }
}
