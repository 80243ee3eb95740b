/** `_repair_schema` of `core/config_loader.py`: after a config file is
    loaded, the `mapping` branch is created when missing, every default
    section is added when missing, and each existing section gains the
    default's missing immediate keys. Nothing present is overwritten and
    nothing deeper is repaired. */
module ConfigRepair {
  import opened Wrappers
  import opened JsonDict

  // ---------------------------------------------------------------
  // The default mapping
  // ---------------------------------------------------------------

  function Blank(keys: seq<string>): (d: Dict)
    ensures |d| == |keys|
    ensures forall i :: 0 <= i < |keys| ==> d[i] == (keys[i], JStr(""))
  {
    if |keys| == 0 then [] else [(keys[0], JStr(""))] + Blank(keys[1..])
  }

  function PenaltySlot(): Json {
    JObj(Blank(["time_field", "nr_field", "bg_time_field", "bg_nr_field"]))
  }

  /** One team's two penalty slots. */
  function PenaltySide(): Json {
    JObj([("p1", PenaltySlot()), ("p2", PenaltySlot())])
  }

  /** The sections of `_default_mapping()["mapping"]`, every leaf `""`. */
  function DefaultSections(): Dict {
    [("clock", JObj(Blank(["input", "field"]))),
     ("penalties", JObj([("home", PenaltySide()), ("away", PenaltySide())])),
     ("goals", JObj([
        ("popup", JObj(Blank(["input", "overlay", "duration_ms"]))),
        ("after", JObj(Blank(["input", "name_field", "nr_field", "logo_field", "team_field",
                              "overlay", "duration_ms", "pause_between_ms"])))])),
     ("empty_goal", JObj(Blank(["input", "text_field", "bg_field"])))]
  }

  lemma DefaultSectionsDistinct()
    ensures DistinctKeys(DefaultSections()) && |DefaultSections()| == 4
  {
  }

  // ---------------------------------------------------------------
  // The repair
  // ---------------------------------------------------------------

  /** The inner loop: each default key of a section missing from the
      section's value is assigned the default. */
  function FillKeys(target: Json, defaults: Dict, j: nat): Result<Json>
    requires j <= |defaults|
    decreases |defaults| - j
  {
    if j == |defaults| then Ok(target)
    else
      var present :- Contains(target, defaults[j].0);
      if present then FillKeys(target, defaults, j + 1)
      else
        var t :- SetItem(target, defaults[j].0, defaults[j].1);
        FillKeys(t, defaults, j + 1)
  }

  /** One pass of the outer loop: a missing section is assigned its
      default; a present one has its missing default keys filled in when
      the default is a dict. */
  function RepairSection(mapping: Json, section: string, dv: Json): Result<Json> {
    var present :- Contains(mapping, section);
    if !present then SetItem(mapping, section, dv)
    else
      var target :- GetItem(mapping, section);
      if dv.JObj? then
        var t :- FillKeys(target, dv.fields, 0);
        SetItem(mapping, section, t)
      else Ok(mapping)
  }

  /** The outer loop over the default sections from `i` on. */
  function RepairSections(mapping: Json, base: Dict, i: nat): Result<Json>
    requires i <= |base|
    decreases |base| - i
  {
    if i == |base| then Ok(mapping)
    else
      var m :- RepairSection(mapping, base[i].0, base[i].1);
      RepairSections(m, base, i + 1)
  }

  /** `_repair_schema` with `base` as the default sections. */
  function RepairWith(base: Dict, cfg: Json): Result<Json> {
    var has :- Contains(cfg, "mapping");
    var cfg1 :- if has then Ok(cfg) else SetItem(cfg, "mapping", JObj(base));
    var mapping :- GetItem(cfg1, "mapping");
    var m :- RepairSections(mapping, base, 0);
    SetItem(cfg1, "mapping", m)
  }

  function Repair(cfg: Json): Result<Json> {
    RepairWith(DefaultSections(), cfg)
  }

  // ---------------------------------------------------------------
  // What a repaired section holds
  // ---------------------------------------------------------------

  /** `key in target` holds for every key of the default `dv`. */
  predicate SectionComplete(target: Json, dv: Json) {
    dv.JObj? ==> forall j :: 0 <= j < |dv.fields| ==> Contains(target, dv.fields[j].0) == Ok(true)
  }

  /** Every default section is in the mapping dict, and complete. */
  predicate MappingComplete(m: Json, base: Dict) {
    && m.JObj?
    && forall i :: 0 <= i < |base| ==>
         base[i].0 in Keys(m.fields) && SectionComplete(Lookup(m.fields, base[i].0).value, base[i].1)
  }

  /** Filling keeps what was there, adds only default keys, and leaves
      every default key present. */
  lemma {:induction false} FillKeysSpec(target: Json, defaults: Dict, j: nat)
    requires j <= |defaults| && FillKeys(target, defaults, j).Ok?
    ensures var t := FillKeys(target, defaults, j).value;
      && (target.JObj? ==> t.JObj? && forall k :: k in Keys(target.fields) ==> Lookup(t.fields, k) == Lookup(target.fields, k))
      && (!target.JObj? ==> t == target)
      && forall q :: j <= q < |defaults| ==> Contains(t, defaults[q].0) == Ok(true)
    decreases |defaults| - j
  {
    if j < |defaults| {
      var key := defaults[j].0;
      var present := Contains(target, key).value;
      if present {
        FillKeysSpec(target, defaults, j + 1);
        var t := FillKeys(target, defaults, j).value;
        if target.JObj? {
          assert Lookup(t.fields, key) == Lookup(target.fields, key);
        }
      } else {
        var t1 := SetItem(target, key, defaults[j].1).value;
        forall k ensures Lookup(t1.fields, k) == if k == key then Some(defaults[j].1) else Lookup(target.fields, k) {
          PutLookup(target.fields, key, defaults[j].1, k);
        }
        FillKeysSpec(t1, defaults, j + 1);
        var t := FillKeys(t1, defaults, j + 1).value;
        assert Lookup(t.fields, key) == Lookup(t1.fields, key);
      }
    }
  }

  /** A value in which every default key is present is left as it is. */
  lemma {:induction false} FillKeysComplete(target: Json, defaults: Dict, j: nat)
    requires j <= |defaults|
    requires forall q :: j <= q < |defaults| ==> Contains(target, defaults[q].0) == Ok(true)
    ensures FillKeys(target, defaults, j) == Ok(target)
    decreases |defaults| - j
  {
    if j < |defaults| {
      FillKeysComplete(target, defaults, j + 1);
    }
  }

  /** What one pass leaves under its section: the default when the
      section was missing, otherwise the section's value with its missing
      default keys added and its present ones kept. */
  predicate SectionRepaired(before: Json, after: Json, section: string, dv: Json)
    requires before.JObj? && after.JObj? && section in Keys(after.fields)
  {
    var now := Lookup(after.fields, section).value;
    && SectionComplete(now, dv)
    && (section !in Keys(before.fields) ==> now == dv)
    && (section in Keys(before.fields) ==>
          var was := Lookup(before.fields, section).value;
          && (was.JObj? ==> now.JObj? && forall k :: k in Keys(was.fields) ==> Lookup(now.fields, k) == Lookup(was.fields, k))
          && (!was.JObj? ==> now == was))
  }

  lemma RepairSectionSpec(mapping: Json, section: string, dv: Json)
    requires RepairSection(mapping, section, dv).Ok?
    ensures mapping.JObj?
    ensures var r := RepairSection(mapping, section, dv).value;
      && r.JObj? && section in Keys(r.fields)
      && SectionRepaired(mapping, r, section, dv)
      && forall k :: k != section ==> Lookup(r.fields, k) == Lookup(mapping.fields, k)
  {
    var r := RepairSection(mapping, section, dv).value;
    if section !in Keys(mapping.fields) {
      forall k ensures Lookup(r.fields, k) == if k == section then Some(dv) else Lookup(mapping.fields, k) {
        PutLookup(mapping.fields, section, dv, k);
      }
      PutLookup(mapping.fields, section, dv, section);
      if dv.JObj? {
        forall j | 0 <= j < |dv.fields| ensures Contains(dv, dv.fields[j].0) == Ok(true) {
          assert dv.fields[j].0 in Keys(dv.fields);
        }
      }
    } else if dv.JObj? {
      var target := GetItem(mapping, section).value;
      FillKeysSpec(target, dv.fields, 0);
      var t := FillKeys(target, dv.fields, 0).value;
      forall k ensures Lookup(r.fields, k) == if k == section then Some(t) else Lookup(mapping.fields, k) {
        PutLookup(mapping.fields, section, t, k);
      }
      PutLookup(mapping.fields, section, t, section);
    }
  }

  /** After the outer loop from `i` on, every remaining section is
      repaired against the mapping as it was, and every other key is as it
      was. */
  lemma {:induction false} RepairSectionsSpec(mapping: Json, base: Dict, i: nat)
    requires i < |base| && RepairSections(mapping, base, i).Ok? && DistinctKeys(base)
    ensures mapping.JObj?
    ensures var r := RepairSections(mapping, base, i).value;
      && r.JObj?
      && (forall q :: i <= q < |base| ==> base[q].0 in Keys(r.fields) && SectionRepaired(mapping, r, base[q].0, base[q].1))
      && (forall k :: k !in Keys(base[i..]) ==> Lookup(r.fields, k) == Lookup(mapping.fields, k))
    decreases |base| - i
  {
    var m := RepairSection(mapping, base[i].0, base[i].1).value;
    var r := RepairSections(mapping, base, i).value;
    RepairSectionSpec(mapping, base[i].0, base[i].1);
    assert forall q :: i < q < |base| ==> base[q].0 != base[i].0;
    if i + 1 < |base| {
      RepairSectionsSpec(m, base, i + 1);
      assert forall k :: k !in Keys(base[i..]) ==> k !in Keys(base[i + 1..]) && k != base[i].0 by {
        assert forall q :: i + 1 <= q < |base| ==> base[q] == base[i..][q - i];
      }
      forall q | i < q < |base|
        ensures base[q].0 in Keys(r.fields) && SectionRepaired(mapping, r, base[q].0, base[q].1)
      {
        assert Lookup(m.fields, base[q].0) == Lookup(mapping.fields, base[q].0);
        assert SectionRepaired(m, r, base[q].0, base[q].1);
      }
      assert base[i].0 !in Keys(base[i + 1..]) by {
        var rest := base[i + 1..];
        assert forall q :: 0 <= q < |rest| ==> rest[q] == base[i + 1 + q];
      }
    } else {
      assert base[i..] == [base[i]];
    }
  }

  /** The outer loop leaves a mapping it finds complete as it is. */
  lemma {:induction false} SectionsKeepComplete(mapping: Json, base: Dict, i: nat)
    requires i <= |base| && MappingComplete(mapping, base)
    ensures RepairSections(mapping, base, i) == Ok(mapping)
    decreases |base| - i
  {
    if i < |base| {
      var section := base[i].0;
      var dv := base[i].1;
      if dv.JObj? {
        var target := Lookup(mapping.fields, section).value;
        FillKeysComplete(target, dv.fields, 0);
        PutSame(mapping.fields, section, target);
      }
      assert RepairSection(mapping, section, dv) == Ok(mapping);
      SectionsKeepComplete(mapping, base, i + 1);
    }
  }

  /** A successful repair was given a dict; it leaves a dict whose
      `mapping` holds every default section, each complete; every other
      top-level key is untouched. */
  lemma RepairShape(base: Dict, cfg: Json)
    requires RepairWith(base, cfg).Ok? && DistinctKeys(base) && |base| > 0
    ensures cfg.JObj?
    ensures var r := RepairWith(base, cfg).value;
      && r.JObj? && "mapping" in Keys(r.fields)
      && MappingComplete(Lookup(r.fields, "mapping").value, base)
      && forall k :: k != "mapping" ==> Lookup(r.fields, k) == Lookup(cfg.fields, k)
  {
    var has := Contains(cfg, "mapping").value;
    var cfg1 := if has then cfg else SetItem(cfg, "mapping", JObj(base)).value;
    var mapping := GetItem(cfg1, "mapping").value;
    var m := RepairSections(mapping, base, 0).value;
    RepairSectionsSpec(mapping, base, 0);
    var r := RepairWith(base, cfg).value;
    assert r == JObj(Put(cfg1.fields, "mapping", m));
    PutLookup(cfg1.fields, "mapping", m, "mapping");
    forall k | k != "mapping" ensures Lookup(r.fields, k) == Lookup(cfg.fields, k) {
      PutLookup(cfg1.fields, "mapping", m, k);
      if !has {
        PutLookup(cfg.fields, "mapping", JObj(base), k);
      }
    }
  }

  /** Nothing a mapping already holds is overwritten: a present section
      keeps every key it had, with its value, and gains only missing
      default keys; a section of the mapping that is not a default one is
      untouched. */
  lemma RepairKeepsMapping(base: Dict, cfg: Json)
    requires RepairWith(base, cfg).Ok? && DistinctKeys(base) && |base| > 0
    requires cfg.JObj? && "mapping" in Keys(cfg.fields)
    ensures var before := Lookup(cfg.fields, "mapping").value;
      var r := RepairWith(base, cfg).value;
      && before.JObj? && r.JObj? && "mapping" in Keys(r.fields)
      && var after := Lookup(r.fields, "mapping").value;
      && after.JObj?
      && (forall q :: 0 <= q < |base| ==>
            base[q].0 in Keys(after.fields) && SectionRepaired(before, after, base[q].0, base[q].1))
      && (forall k :: k !in Keys(base) ==> Lookup(after.fields, k) == Lookup(before.fields, k))
  {
    var mapping := Lookup(cfg.fields, "mapping").value;
    var m := RepairSections(mapping, base, 0).value;
    RepairSectionsSpec(mapping, base, 0);
    assert base[0..] == base;
    PutLookup(cfg.fields, "mapping", m, "mapping");
  }

  /** A config without a `mapping` gets the default sections, exactly. */
  lemma RepairAddsDefaultMapping(base: Dict, cfg: Json)
    requires WellFormed(JObj(base)) && |base| > 0
    requires cfg.JObj? && "mapping" !in Keys(cfg.fields)
    ensures RepairWith(base, cfg).Ok?
    ensures var r := RepairWith(base, cfg).value;
      r.JObj? && Lookup(r.fields, "mapping") == Some(JObj(base))
  {
    var mapping := JObj(base);
    forall i | 0 <= i < |base|
      ensures base[i].0 in Keys(base) && SectionComplete(Lookup(base, base[i].0).value, base[i].1)
    {
      LookupEntry(base, i);
      var dv := base[i].1;
      if dv.JObj? {
        forall j | 0 <= j < |dv.fields| ensures Contains(dv, dv.fields[j].0) == Ok(true) {
          assert dv.fields[j].0 in Keys(dv.fields);
        }
      }
    }
    assert MappingComplete(mapping, base);
    SectionsKeepComplete(mapping, base, 0);
    var cfg1 := SetItem(cfg, "mapping", mapping).value;
    PutLookup(cfg.fields, "mapping", mapping, "mapping");
    assert GetItem(cfg1, "mapping") == Ok(mapping);
    PutLookup(cfg1.fields, "mapping", mapping, "mapping");
  }

  /** A config whose mapping is complete is returned unchanged. */
  lemma RepairKeepsComplete(base: Dict, cfg: Json)
    requires cfg.JObj? && "mapping" in Keys(cfg.fields)
    requires MappingComplete(Lookup(cfg.fields, "mapping").value, base)
    ensures RepairWith(base, cfg) == Ok(cfg)
  {
    var mapping := Lookup(cfg.fields, "mapping").value;
    SectionsKeepComplete(mapping, base, 0);
    PutSame(cfg.fields, "mapping", mapping);
  }

  /** Repairing twice is repairing once. */
  lemma RepairIdempotent(base: Dict, cfg: Json)
    requires RepairWith(base, cfg).Ok? && DistinctKeys(base) && |base| > 0
    ensures RepairWith(base, RepairWith(base, cfg).value) == RepairWith(base, cfg)
  {
    RepairShape(base, cfg);
    RepairKeepsComplete(base, RepairWith(base, cfg).value);
  }

  /** A `mapping` that is not a dict makes the repair raise `TypeError`. */
  lemma RepairRejectsNonDictMapping(base: Dict, cfg: Json)
    requires |base| > 0 && cfg.JObj? && "mapping" in Keys(cfg.fields)
    requires !Lookup(cfg.fields, "mapping").value.JObj?
    ensures RepairWith(base, cfg).Err? && RepairWith(base, cfg).error.TypeError?
  {
  }

  /** A config that is not a dict fails the repair: `TypeError` for a
      number, a boolean, `None`, and for a list or string without the
      `"mapping"` element or substring. */
  lemma RepairRejectsNonDict(base: Dict, cfg: Json)
    requires !cfg.JObj?
    ensures RepairWith(base, cfg).Err?
  {
  }

  /** A dict of blank strings is well formed when its keys are distinct. */
  lemma BlankWellFormed(keys: seq<string>)
    requires forall i, j :: 0 <= i < j < |keys| ==> keys[i] != keys[j]
    ensures WellFormed(JObj(Blank(keys)))
  {
  }

  lemma PenaltySlotWellFormed()
    ensures WellFormed(PenaltySlot())
  {
    BlankWellFormed(["time_field", "nr_field", "bg_time_field", "bg_nr_field"]);
  }

  /** A two-entry dict with distinct keys over well-formed values. */
  lemma PairWellFormed(a: string, x: Json, b: string, y: Json)
    requires a != b && WellFormed(x) && WellFormed(y)
    ensures WellFormed(JObj([(a, x), (b, y)]))
  {
  }

  lemma PenaltiesWellFormed()
    ensures WellFormed(DefaultSections()[1].1)
  {
    PenaltySlotWellFormed();
    PairWellFormed("p1", PenaltySlot(), "p2", PenaltySlot());
    PairWellFormed("home", PenaltySide(), "away", PenaltySide());
  }

  lemma GoalsWellFormed()
    ensures WellFormed(DefaultSections()[2].1)
  {
    var popup := JObj(Blank(["input", "overlay", "duration_ms"]));
    var after := JObj(Blank(["input", "name_field", "nr_field", "logo_field", "team_field",
                             "overlay", "duration_ms", "pause_between_ms"]));
    PopupWellFormed();
    AfterWellFormed();
    assert DefaultSections()[2].1 == JObj([("popup", popup), ("after", after)]);
  }

  lemma PopupWellFormed()
    ensures WellFormed(JObj(Blank(["input", "overlay", "duration_ms"])))
  {
    BlankWellFormed(["input", "overlay", "duration_ms"]);
  }

  lemma AfterWellFormed()
    ensures WellFormed(JObj(Blank(["input", "name_field", "nr_field", "logo_field", "team_field",
                                   "overlay", "duration_ms", "pause_between_ms"])))
  {
    BlankWellFormed(["input", "name_field", "nr_field", "logo_field", "team_field",
                     "overlay", "duration_ms", "pause_between_ms"]);
  }

  /** The default sections satisfy what the lemmas above ask of `base`. */
  lemma DefaultSectionsWellFormed()
    ensures WellFormed(JObj(DefaultSections())) && |DefaultSections()| == 4
  {
    BlankWellFormed(["input", "field"]);
    BlankWellFormed(["input", "text_field", "bg_field"]);
    PenaltiesWellFormed();
    GoalsWellFormed();
    DefaultSectionsDistinct();
    var d := DefaultSections();
    assert forall i :: 0 <= i < |d| ==> WellFormed(d[i].1) by {
      assert WellFormed(d[0].1) && WellFormed(d[3].1);
    }
  }

  /** A config without a `mapping` gets the built-in default sections. */
  lemma RepairAddsDefaults(cfg: Json)
    requires cfg.JObj? && "mapping" !in Keys(cfg.fields)
    ensures Repair(cfg).Ok?
    ensures Repair(cfg).value.JObj? && Lookup(Repair(cfg).value.fields, "mapping") == Some(JObj(DefaultSections()))
  {
    DefaultSectionsWellFormed();
    RepairAddsDefaultMapping(DefaultSections(), cfg);
  }

  /** With the built-in defaults, repairing twice is repairing once. */
  lemma RepairTwice(cfg: Json)
    requires Repair(cfg).Ok?
    ensures Repair(Repair(cfg).value) == Repair(cfg)
  {
    DefaultSectionsDistinct();
    RepairIdempotent(DefaultSections(), cfg);
  }
}
