/** What the legacy scoreboard controller reads before it acts: its slice
    of the configuration, the field names of each penalty slot with their
    layout defaults, and the text table of the scoreboard input. */
module ScoreboardFields {
  import opened Wrappers
  import opened PyText
  import opened LegacyClient

  // ---------------------------------------------------------------
  // Configuration
  // ---------------------------------------------------------------

  /** One slot's entry under `penalties`. A key that is present maps to
      its value, where `None` is JSON `null`; a missing key is absent from
      the map, and the two are told apart by `.get(key, default)`. */
  type PenaltyCfg = map<string, Option<string>>

  /** The `scoreboard` section as the controller uses it: the input to
      drive, the four fixed field names, the `penalties` dict in its key
      order, the overlay channel, and the optional empty-net text and
      background fields of each side. */
  datatype SbConfig = SbConfig(
    input: string,
    clockField: string,
    homeScoreField: string,
    awayScoreField: string,
    periodField: string,
    penalties: seq<(string, PenaltyCfg)>,
    overlayChannel: int,
    homeEmptyField: Option<string>,
    homeEmptyBgField: Option<string>,
    awayEmptyField: Option<string>,
    awayEmptyBgField: Option<string>)

  /** The slot names, in the order the `penalties` dict iterates them. */
  function SlotKeys(cfg: SbConfig): (r: seq<string>)
    ensures |r| == |cfg.penalties|
    ensures forall i :: 0 <= i < |r| ==> r[i] == cfg.penalties[i].0
    decreases |cfg.penalties|
  {
    if |cfg.penalties| == 0 then []
    else [cfg.penalties[0].0] + SlotKeys(cfg.(penalties := cfg.penalties[1..]))
  }

  /** A dict has distinct keys. */
  predicate SlotsDistinct(cfg: SbConfig) {
    forall i, j :: 0 <= i < j < |cfg.penalties| ==> cfg.penalties[i].0 != cfg.penalties[j].0
  }

  /** `penalties.get(slot, {})`. */
  function SlotConfig(cfg: SbConfig, slot: string): (r: PenaltyCfg)
    ensures (forall i :: 0 <= i < |cfg.penalties| ==> cfg.penalties[i].0 != slot) ==> r == map[]
    ensures forall i :: (0 <= i < |cfg.penalties| && cfg.penalties[i].0 == slot
      && (forall j :: 0 <= j < i ==> cfg.penalties[j].0 != slot)) ==> r == cfg.penalties[i].1
    decreases |cfg.penalties|
  {
    if |cfg.penalties| == 0 then map[]
    else if cfg.penalties[0].0 == slot then cfg.penalties[0].1
    else
      var rest := cfg.(penalties := cfg.penalties[1..]);
      assert forall i :: 0 < i < |cfg.penalties| ==> cfg.penalties[i] == rest.penalties[i - 1];
      SlotConfig(rest, slot)
  }

  /** `d.get(key, default)`. */
  function CfgGet(m: PenaltyCfg, key: string, default: Option<string>): Option<string> {
    if key in m then m[key] else default
  }

  // ---------------------------------------------------------------
  // Python truthiness on optional strings
  // ---------------------------------------------------------------

  /** A name that is neither `None` nor `""`. */
  predicate Truthy(v: Option<string>) {
    v.Some? && |v.value| > 0
  }

  /** Python `a or b`: `a` when it is truthy, otherwise `b` as it is. */
  function Or(a: Option<string>, b: Option<string>): (r: Option<string>)
    ensures Truthy(r) <==> Truthy(a) || Truthy(b)
    ensures Truthy(a) ==> r == a
    ensures !Truthy(a) ==> r == b
  {
    if Truthy(a) then a else b
  }

  // ---------------------------------------------------------------
  // Field names of a penalty slot
  // ---------------------------------------------------------------

  /** The field names `_penalty_fields` returns for a slot. */
  datatype Fields = Fields(
    time: Option<string>, number: Option<string>, name: Option<string>,
    timeBg: Option<string>, numberBg: Option<string>)

  /** The layout of one slot of the scoreboard title, by its prefix. */
  function Layout(prefix: string): (f: Fields)
    ensures Truthy(f.time) && Truthy(f.number) && f.name.None?
    ensures Truthy(f.timeBg) && Truthy(f.numberBg)
  {
    Fields(Some(prefix + "time.Text"), Some(prefix + "nr.Text"), None,
           Some(prefix + "bg.Source"), Some(prefix + "bgnr.Source"))
  }

  /** The four slots the scoreboard title lays out. */
  predicate KnownSlot(slot: string) {
    slot == "H1" || slot == "H2" || slot == "A1" || slot == "A2"
  }

  /** The fallback field names: the title's own layout for the four known
      slots, nothing for any other slot. */
  function DefaultFields(slot: string): (f: Fields)
    ensures KnownSlot(slot) ==> Truthy(f.time) && Truthy(f.number) && Truthy(f.timeBg) && Truthy(f.numberBg)
    ensures !KnownSlot(slot) ==> f == Fields(None, None, None, None, None)
    ensures f.name.None?
  {
    if slot == "H1" then Layout("HomeP1")
    else if slot == "H2" then Layout("HomeP2")
    else if slot == "A1" then Layout("AwayP1")
    else if slot == "A2" then Layout("AwayP2")
    else Fields(None, None, None, None, None)
  }

  /** `_penalty_fields`: the slot is upper-cased; the time, number and name
      fields come from the slot's config when the key is there, even as
      `null`, and from the defaults otherwise; the time background is the
      first truthy of `time_bg_field`, the older `bg_field` and the default,
      and the number background the first truthy of `number_bg_field` and
      the default. */
  function PenaltyFields(cfg: SbConfig, slot: string): (f: Fields)
    ensures var pen := SlotConfig(cfg, Upper(slot));
      && ("time_field" in pen ==> f.time == pen["time_field"])
      && ("number_field" in pen ==> f.number == pen["number_field"])
      && ("name_field" in pen ==> f.name == pen["name_field"])
      && (Truthy(CfgGet(pen, "time_bg_field", None)) ==> f.timeBg == pen["time_bg_field"])
      && (Truthy(f.timeBg) <==>
            Truthy(CfgGet(pen, "time_bg_field", None)) || Truthy(CfgGet(pen, "bg_field", None))
            || Truthy(DefaultFields(Upper(slot)).timeBg))
      && (Truthy(CfgGet(pen, "number_bg_field", None)) ==> f.numberBg == pen["number_bg_field"])
    ensures SlotConfig(cfg, Upper(slot)) == map[] ==> f == DefaultFields(Upper(slot))
  {
    var s := Upper(slot);
    var pen := SlotConfig(cfg, s);
    var base := DefaultFields(s);
    Fields(
      CfgGet(pen, "time_field", base.time),
      CfgGet(pen, "number_field", base.number),
      CfgGet(pen, "name_field", base.name),
      Or(CfgGet(pen, "time_bg_field", None), Or(CfgGet(pen, "bg_field", None), base.timeBg)),
      Or(CfgGet(pen, "number_bg_field", None), base.numberBg))
  }

  /** Where the slot's config is silent the layout decides: an absent
      time, number or name key gives the default field; with no truthy
      `time_bg_field` the time background is `bg_field` when that is truthy
      and the default otherwise; with no truthy `number_bg_field` the
      number background is the default. */
  lemma PenaltyFieldsFallbacks(cfg: SbConfig, slot: string)
    ensures var f := PenaltyFields(cfg, slot);
      var pen := SlotConfig(cfg, Upper(slot));
      var d := DefaultFields(Upper(slot));
      && ("time_field" !in pen ==> f.time == d.time)
      && ("number_field" !in pen ==> f.number == d.number)
      && ("name_field" !in pen ==> f.name == d.name)
    ensures var f := PenaltyFields(cfg, slot);
      var pen := SlotConfig(cfg, Upper(slot));
      var tbg := CfgGet(pen, "time_bg_field", None);
      var bg := CfgGet(pen, "bg_field", None);
      && (!Truthy(tbg) && Truthy(bg) ==> f.timeBg == bg)
      && (!Truthy(tbg) && !Truthy(bg) ==> f.timeBg == DefaultFields(Upper(slot)).timeBg)
      && (!Truthy(CfgGet(pen, "number_bg_field", None)) ==> f.numberBg == DefaultFields(Upper(slot)).numberBg)
  {
  }

  /** Slot names are case-insensitive: `"h1"` and `"H1"` name the same
      fields. */
  lemma PenaltyFieldsIgnoreCase(cfg: SbConfig, slot: string)
    ensures PenaltyFields(cfg, slot) == PenaltyFields(cfg, Upper(slot))
  {
    UpperIdempotent(slot);
  }

  /** An unconfigured known slot has every field of the layout, and an
      unconfigured unknown slot has none. */
  lemma UnconfiguredSlot(cfg: SbConfig, slot: string)
    requires forall i :: 0 <= i < |cfg.penalties| ==> cfg.penalties[i].0 != Upper(slot)
    ensures KnownSlot(Upper(slot)) ==> Truthy(PenaltyFields(cfg, slot).time) && Truthy(PenaltyFields(cfg, slot).number)
    ensures !KnownSlot(Upper(slot)) ==> !Truthy(PenaltyFields(cfg, slot).time) && !Truthy(PenaltyFields(cfg, slot).number)
  {
  }

  // ---------------------------------------------------------------
  // The text table of the scoreboard input
  // ---------------------------------------------------------------

  /** `get_state`'s `texts` dict: each text field's stripped value under
      its name, a later field overriding an earlier one of the same name. */
  function TextTable(ts: seq<TextNode>): (m: map<string, string>)
    ensures forall k :: k in m <==> exists i :: 0 <= i < |ts| && ts[i].name == k
  {
    if |ts| == 0 then map[]
    else
      var init := ts[..|ts| - 1];
      var m0 := TextTable(init);
      assert forall i :: 0 <= i < |init| ==> init[i] == ts[i];
      m0[ts[|ts| - 1].name := Strip(ts[|ts| - 1].text)]
  }

  /** The table holds the last field of each name. */
  lemma {:induction false} LastFieldWins(ts: seq<TextNode>, i: nat)
    requires i < |ts|
    requires forall j :: i < j < |ts| ==> ts[j].name != ts[i].name
    ensures ts[i].name in TextTable(ts) && TextTable(ts)[ts[i].name] == Strip(ts[i].text)
  {
    if i < |ts| - 1 {
      var init := ts[..|ts| - 1];
      assert forall j :: i < j < |init| ==> init[j] == ts[j];
      LastFieldWins(init, i);
    }
  }

  /** `texts.get(name, default)`. */
  function TGet(texts: map<string, string>, name: string, default: string): string {
    if name in texts then texts[name] else default
  }

  /** With several fields of one name, the table holds the last of them
      while `get_text_from_title` finds the first: the engine's tick and
      its adjustment read different texts when the title has duplicates. */
  lemma DuplicateFieldReadings(ts: seq<TextNode>, name: string, first: nat, last: nat)
    requires first < last < |ts| && ts[first].name == name && ts[last].name == name
    requires forall k :: 0 <= k < first ==> ts[k].name != name
    requires forall k :: last < k < |ts| ==> ts[k].name != name
    ensures TGet(TextTable(ts), name, "") == Strip(ts[last].text)
    ensures FirstField(ts, name, 0) == Some(first)
  {
    LastFieldWins(ts, last);
  }
}
