/** `EmptyGoalController` of `controllers/empty_goal_controller.py`: one
    empty-net flag per side, rendered as a text field ("EMPTY GOAL" or
    blank) and a background field ("1" or "0") through `title_set_text`.
    A failing write is caught and logged, so the client's behaviour does not
    show in the model; only a `fields` entry that is not a dict raises. */
module EmptyGoalControl {
  import opened Wrappers
  import opened JsonDict
  import opened AppClient
  import ConfigRepair

  datatype EmptyGoal = EmptyGoal(input: Json, fields: Json, home: bool, away: bool)

  /** The constructor: `cfg["mapping"]["empty_goal"]` and its `input` and
      `fields` entries; both flags off. */
  function New(cfg: Json): (r: Result<EmptyGoal>)
    ensures r.Ok? <==> (Path(cfg, ["mapping", "empty_goal", "input"]).Some?
                     && Path(cfg, ["mapping", "empty_goal", "fields"]).Some?)
    ensures r.Ok? ==> (!r.value.home && !r.value.away
                    && r.value.input == Path(cfg, ["mapping", "empty_goal", "input"]).value
                    && r.value.fields == Path(cfg, ["mapping", "empty_goal", "fields"]).value)
  {
    var m :- GetPath(cfg, ["mapping", "empty_goal"]);
    var input :- GetItem(m, "input");
    var fields :- GetItem(m, "fields");
    assert ["mapping", "empty_goal", "input"][2..] == ["input"];
    assert ["mapping", "empty_goal", "fields"][2..] == ["fields"];
    PathAppend(cfg, ["mapping", "empty_goal"], "input");
    PathAppend(cfg, ["mapping", "empty_goal"], "fields");
    Ok(EmptyGoal(input, fields, false, false))
  }

  function TextValue(state: bool): string {
    if state then "EMPTY GOAL" else ""
  }

  function BgValue(state: bool): string {
    if state then "1" else "0"
  }

  /** `_render_home` / `_render_away`: the text field, then the background
      field, each written only when its configured name is truthy. */
  function Render(c: EmptyGoal, home: bool): (r: Result<seq<ClientCall>>)
    ensures r.Ok? <==> c.fields.JObj?
  {
    var state := if home then c.home else c.away;
    match c.fields
    case JObj(fs) =>
      var textField := Lookup(fs, if home then "home_text" else "away_text").GetOr(JStr(""));
      var bgField := Lookup(fs, if home then "home_bg" else "away_bg").GetOr(JStr(""));
      Ok((if Truthy(textField) then [TitleSetText(c.input, textField, TextValue(state))] else [])
         + (if Truthy(bgField) then [TitleSetText(c.input, bgField, BgValue(state))] else []))
    case _ => Err(AttributeError("object has no attribute 'get'"))
  }

  function Finish(c: EmptyGoal, home: bool): Outcome<EmptyGoal> {
    match Render(c, home)
    case Ok(calls) => Outcome(c, calls, None)
    case Err(e) => Outcome(c, [], Some(e))
  }

  function ToggleHome(c: EmptyGoal): Outcome<EmptyGoal> {
    Finish(c.(home := !c.home), true)
  }

  function ToggleAway(c: EmptyGoal): Outcome<EmptyGoal> {
    Finish(c.(away := !c.away), false)
  }

  /** `set_home(state)`: stores `bool(state)`. */
  function SetHome(c: EmptyGoal, state: Json): Outcome<EmptyGoal> {
    Finish(c.(home := Truthy(state)), true)
  }

  function SetAway(c: EmptyGoal, state: Json): Outcome<EmptyGoal> {
    Finish(c.(away := Truthy(state)), false)
  }

  // ---------------------------------------------------------------
  // Properties
  // ---------------------------------------------------------------

  lemma PathAppend(x: Json, ks: seq<string>, k: string)
    requires Path(x, ks).Some?
    ensures Path(x, ks + [k]) == Path(Path(x, ks).value, [k])
    decreases |ks|
  {
    if ks != [] {
      assert (ks + [k])[1..] == ks[1..] + [k];
      PathAppend(Lookup(x.fields, ks[0]).value, ks[1..], k);
    }
  }

  /** Every call a render makes shows the flag: the text field carries
      "EMPTY GOAL" exactly when the flag is on, the background "1" exactly
      when it is on; an unset field name gets no call. */
  lemma RenderSpec(c: EmptyGoal, home: bool)
    requires c.fields.JObj?
    ensures var calls := Render(c, home).value;
      var state := if home then c.home else c.away;
      var t := Lookup(c.fields.fields, if home then "home_text" else "away_text");
      var b := Lookup(c.fields.fields, if home then "home_bg" else "away_bg");
      && |calls| == (if t.Some? && Truthy(t.value) then 1 else 0) + (if b.Some? && Truthy(b.value) then 1 else 0)
      && (forall i :: 0 <= i < |calls| ==> calls[i].TitleSetText? && calls[i].input == c.input)
      && (t.Some? && Truthy(t.value) ==> calls[0] == TitleSetText(c.input, t.value, TextValue(state)))
      && (b.Some? && Truthy(b.value) ==> calls[|calls| - 1] == TitleSetText(c.input, b.value, BgValue(state)))
      && (TextValue(state) == "EMPTY GOAL" <==> state)
      && (BgValue(state) == "1" <==> state)
  {
  }

  /** Toggling flips one side and leaves the other alone; toggling twice
      restores both flags. */
  lemma ToggleSpec(c: EmptyGoal)
    ensures ToggleHome(c).state == c.(home := !c.home)
    ensures ToggleAway(c).state == c.(away := !c.away)
    ensures ToggleHome(ToggleHome(c).state).state == c
    ensures ToggleAway(ToggleAway(c).state).state == c
  {
  }

  /** Setting stores the truthiness of its argument, and setting again to
      the same value changes nothing and repeats the same calls. */
  lemma SetIdempotent(c: EmptyGoal, x: Json)
    ensures SetHome(c, x).state.home == Truthy(x) && SetHome(c, x).state.away == c.away
    ensures SetHome(SetHome(c, x).state, x) == SetHome(c, x)
    ensures SetAway(c, x).state.away == Truthy(x) && SetAway(c, x).state.home == c.home
    ensures SetAway(SetAway(c, x).state, x) == SetAway(c, x)
  {
  }

  /** A `fields` entry that is not a dict makes a render raise
      `AttributeError` after the flag has changed. */
  lemma NonDictFieldsRaise(c: EmptyGoal)
    requires !c.fields.JObj?
    ensures ToggleHome(c).error.Some? && ToggleHome(c).error.value.AttributeError?
    ensures ToggleHome(c).state.home == !c.home && ToggleHome(c).calls == []
  {
  }

  /** One level of a path walk. */
  lemma PathStep(x: Json, k: string, ks: seq<string>)
    requires x.JObj? && Lookup(x.fields, k).Some?
    ensures Path(x, [k] + ks) == Path(Lookup(x.fields, k).value, ks)
  {
    assert ([k] + ks)[0] == k && ([k] + ks)[1..] == ks;
  }

  /** The empty-goal section of the default mapping has no `fields`. */
  lemma BlankEmptyGoalSection()
    ensures var eg := ConfigRepair.DefaultSections()[3];
      eg.0 == "empty_goal" && Path(eg.1, ["fields"]).None?
  {
    var keys := ["input", "text_field", "bg_field"];
    assert ConfigRepair.DefaultSections()[3] == ("empty_goal", JObj(ConfigRepair.Blank(keys)));
    assert "fields" !in keys by {
      assert "fields"[0] != "input"[0] && "fields"[0] != "text_field"[0] && "fields"[0] != "bg_field"[0];
    }
    BlankLacks(keys, "fields");
  }

  /** A blank section holds exactly the keys it was made from. */
  lemma BlankLacks(keys: seq<string>, k: string)
    requires k !in keys
    ensures Lookup(ConfigRepair.Blank(keys), k).None?
  {
    var b := ConfigRepair.Blank(keys);
    assert forall i :: 0 <= i < |b| ==> b[i].0 == keys[i];
  }

  /** A mapping whose empty-goal section has no `fields` gives no path to
      them. */
  lemma SectionPathMissing(r: Json, d: Dict, i: nat)
    requires r.JObj? && Lookup(r.fields, "mapping") == Some(JObj(d))
    requires DistinctKeys(d) && i < |d| && d[i].0 == "empty_goal" && Path(d[i].1, ["fields"]).None?
    ensures Path(r, ["mapping", "empty_goal", "fields"]).None?
  {
    LookupEntry(d, i);
    PathStep(r, "mapping", ["empty_goal", "fields"]);
    PathStep(JObj(d), "empty_goal", ["fields"]);
    assert ["mapping", "empty_goal", "fields"] == ["mapping"] + ["empty_goal", "fields"];
    assert ["empty_goal", "fields"] == ["empty_goal"] + ["fields"];
  }

  /** The default mapping that the schema repair of `core/config_loader.py`
      adds names the empty-goal entries `input`, `text_field` and
      `bg_field`, not `fields`: built from a configuration that had no
      mapping, this controller raises in its constructor. */
  lemma DefaultMappingLacksFields(cfg: Json)
    requires cfg.JObj? && "mapping" !in Keys(cfg.fields)
    ensures ConfigRepair.Repair(cfg).Ok?
    ensures New(ConfigRepair.Repair(cfg).value).Err?
  {
    ConfigRepair.RepairAddsDefaults(cfg);
    ConfigRepair.DefaultSectionsDistinct();
    BlankEmptyGoalSection();
    SectionPathMissing(ConfigRepair.Repair(cfg).value, ConfigRepair.DefaultSections(), 3);
  }
}
