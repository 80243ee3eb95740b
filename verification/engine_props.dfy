/** Properties of the legacy scoreboard engine across operations: what a
    tick observes, when the auto-clear fires and that it fires once, how
    start and pause address the same penalties, and what the setters
    write. */
module EngineProps {
  import opened Wrappers
  import opened PyText
  import opened ScoreboardTime
  import opened VmixCall
  import opened LegacyClient
  import opened ScoreboardFields
  import opened LegacyScoreboard

  // ---------------------------------------------------------------
  // What a tick observes
  // ---------------------------------------------------------------

  /** The views of a tick: one per configured slot, in config order, each
      with the seconds its time field reads as, and active exactly when
      those seconds are positive. */
  lemma TickViews(cfg: SbConfig, num: string, texts: map<string, string>, s: EngineState)
    ensures var v := Tick(cfg, num, texts, s).1;
      && |v.penalties| == |cfg.penalties|
      && forall i :: 0 <= i < |cfg.penalties| ==>
        && v.penalties[i].slot == cfg.penalties[i].0
        && v.penalties[i].seconds == SlotView(cfg, texts, cfg.penalties[i].0).seconds
        && (v.penalties[i].active <==> v.penalties[i].seconds.Some? && v.penalties[i].seconds.value > 0)
  {
    var clock := Tick(cfg, num, texts, s).1.clockSecs;
    var s0 := EngineState(Tick(cfg, num, texts, s).1.running, clock, s.lastPenalty);
    var views := Views(cfg, texts, SlotKeys(cfg));
    TickUnfold(cfg, num, texts, s);
    ViewsActive(cfg, texts, SlotKeys(cfg));
    var out := AutoClear(cfg, num, clock, s0, views).1;
    assert Tick(cfg, num, texts, s).1.penalties == out;
  }

  /** A tick is the auto-clear over the views of the configured slots,
      starting from the record as it was. */
  lemma TickUnfold(cfg: SbConfig, num: string, texts: map<string, string>, s: EngineState)
    ensures var (s1, v, calls) := Tick(cfg, num, texts, s);
      var r := AutoClear(cfg, num, v.clockSecs, EngineState(v.running, v.clockSecs, s.lastPenalty),
                         Views(cfg, texts, SlotKeys(cfg)));
      s1 == r.0 && v.penalties == r.1 && calls == r.2
  {
  }

  lemma ViewsActive(cfg: SbConfig, texts: map<string, string>, slots: seq<string>)
    ensures var views := Views(cfg, texts, slots);
      forall i :: 0 <= i < |views| ==> (views[i].active <==> views[i].seconds.Some? && views[i].seconds.value > 0)
  {
  }

  /** A title without the clock field reads as `00:00`: the clock is zero,
      the flag is forced off and nothing is cleared. */
  lemma MissingClockReadsZero(cfg: SbConfig, num: string, texts: map<string, string>, s: EngineState)
    requires cfg.clockField !in texts
    ensures var (s1, v, calls) := Tick(cfg, num, texts, s);
      v.clockRaw == "00:00" && v.clockSecs == Some(0) && !s1.running && calls == []
  {
    ZeroText();
  }

  // ---------------------------------------------------------------
  // The auto-clear
  // ---------------------------------------------------------------

  /** No two slots share a name, and none is the upper-cased name of
      another. The second part matters because `clear_penalty` records
      under the upper-cased slot while the tick records under the slot as
      configured. */
  predicate CleanViews(views: seq<PenaltyView>) {
    forall i, j :: 0 <= i < |views| && 0 <= j < |views| && i != j ==>
      views[i].slot != views[j].slot && Upper(views[i].slot) != views[j].slot
  }

  /** The reference for the auto-clear: each slot is cleared exactly when
      it reads 0 now, read more than 0 last time, and the clock does not
      read 0. */
  function ExpectedClears(cfg: SbConfig, num: string, clock: Option<nat>, prev: map<string, Option<nat>>, views: seq<PenaltyView>)
    : seq<Call>
  {
    if |views| == 0 then []
    else
      (if Fires(views[0].seconds, PrevOf(prev, views[0].slot), clock) then ClearCalls(cfg, num, views[0].slot) else [])
      + ExpectedClears(cfg, num, clock, prev, views[1..])
  }

  lemma {:induction false} ExpectedClearsFrame(
    cfg: SbConfig, num: string, clock: Option<nat>, m1: map<string, Option<nat>>, m2: map<string, Option<nat>>,
    views: seq<PenaltyView>)
    requires forall i :: 0 <= i < |views| ==> PrevOf(m1, views[i].slot) == PrevOf(m2, views[i].slot)
    ensures ExpectedClears(cfg, num, clock, m1, views) == ExpectedClears(cfg, num, clock, m2, views)
  {
    if |views| > 0 {
      ExpectedClearsFrame(cfg, num, clock, m1, m2, views[1..]);
    }
  }

  /** The record after the auto-clear has handled one view. */
  function StepRecord(cfg: SbConfig, num: string, clock: Option<nat>, s: EngineState, v: PenaltyView): EngineState {
    var s1 := if Fires(v.seconds, PrevOf(s.lastPenalty, v.slot), clock) then ClearAt(cfg, num, s, v.slot).0 else s;
    s1.(lastPenalty := s1.lastPenalty[v.slot := v.seconds])
  }

  /** Handling one view touches only its slot and its upper-cased slot,
      and leaves the slot's seconds as recorded. */
  lemma StepRecordFrame(cfg: SbConfig, num: string, clock: Option<nat>, s: EngineState, v: PenaltyView, k: string)
    ensures k != v.slot && k != Upper(v.slot) ==>
      PrevOf(StepRecord(cfg, num, clock, s, v).lastPenalty, k) == PrevOf(s.lastPenalty, k)
    ensures PrevOf(StepRecord(cfg, num, clock, s, v).lastPenalty, v.slot) == v.seconds
  {
  }

  /** One step of the auto-clear loop. */
  lemma AutoClearStep(cfg: SbConfig, num: string, clock: Option<nat>, s: EngineState, views: seq<PenaltyView>)
    requires |views| > 0
    ensures var v := views[0];
      var r := AutoClear(cfg, num, clock, s, views);
      var t := AutoClear(cfg, num, clock, StepRecord(cfg, num, clock, s, v), views[1..]);
      && r.0 == t.0
      && r.2 == (if Fires(v.seconds, PrevOf(s.lastPenalty, v.slot), clock) then ClearCalls(cfg, num, v.slot) else []) + t.2
  {
  }

  /** The auto-clear loop leaves alone every key that is neither a slot
      nor an upper-cased slot. */
  lemma {:induction false} AutoClearFrame(
    cfg: SbConfig, num: string, clock: Option<nat>, s: EngineState, views: seq<PenaltyView>, k: string)
    requires forall i :: 0 <= i < |views| ==> views[i].slot != k && Upper(views[i].slot) != k
    ensures PrevOf(AutoClear(cfg, num, clock, s, views).0.lastPenalty, k) == PrevOf(s.lastPenalty, k)
    decreases |views|
  {
    if |views| > 0 {
      var s2 := StepRecord(cfg, num, clock, s, views[0]);
      AutoClearStep(cfg, num, clock, s, views);
      StepRecordFrame(cfg, num, clock, s, views[0], k);
      AutoClearFrame(cfg, num, clock, s2, views[1..], k);
    }
  }

  /** The auto-clear loop issues exactly the reference clears, judged
      against the record from before the tick, and afterwards records each
      slot's seconds of this tick. */
  lemma {:induction false} AutoClearSpec(
    cfg: SbConfig, num: string, clock: Option<nat>, s: EngineState, views: seq<PenaltyView>)
    requires CleanViews(views)
    ensures AutoClear(cfg, num, clock, s, views).2 == ExpectedClears(cfg, num, clock, s.lastPenalty, views)
    ensures forall i :: 0 <= i < |views| ==>
      PrevOf(AutoClear(cfg, num, clock, s, views).0.lastPenalty, views[i].slot) == views[i].seconds
    decreases |views|
  {
    if |views| > 0 {
      var v := views[0];
      var tail := views[1..];
      var s2 := StepRecord(cfg, num, clock, s, v);
      assert forall i :: 0 <= i < |tail| ==> tail[i] == views[i + 1];
      assert CleanViews(tail);
      AutoClearStep(cfg, num, clock, s, views);
      AutoClearSpec(cfg, num, clock, s2, tail);
      forall i | 0 <= i < |tail|
        ensures PrevOf(s2.lastPenalty, tail[i].slot) == PrevOf(s.lastPenalty, tail[i].slot)
      {
        StepRecordFrame(cfg, num, clock, s, v, tail[i].slot);
      }
      ExpectedClearsFrame(cfg, num, clock, s2.lastPenalty, s.lastPenalty, tail);
      StepRecordFrame(cfg, num, clock, s, v, v.slot);
      AutoClearFrame(cfg, num, clock, s2, tail, v.slot);
    }
  }

  /** When every slot's record already equals what it reads, nothing
      fires. */
  lemma {:induction false} NothingFiresOnSeen(
    cfg: SbConfig, num: string, clock: Option<nat>, m: map<string, Option<nat>>, views: seq<PenaltyView>)
    requires forall i :: 0 <= i < |views| ==> PrevOf(m, views[i].slot) == views[i].seconds
    ensures ExpectedClears(cfg, num, clock, m, views) == []
  {
    if |views| > 0 {
      NothingFiresOnSeen(cfg, num, clock, m, views[1..]);
    }
  }

  /** The slots of a configuration satisfy `CleanViews` when the config
      keys are distinct and none is the upper-cased form of another, as
      with the usual `H1`, `H2`, `A1`, `A2`. */
  predicate CleanSlots(cfg: SbConfig) {
    forall i, j :: 0 <= i < |cfg.penalties| && 0 <= j < |cfg.penalties| && i != j ==>
      cfg.penalties[i].0 != cfg.penalties[j].0 && Upper(cfg.penalties[i].0) != cfg.penalties[j].0
  }

  lemma CleanTickViews(cfg: SbConfig, texts: map<string, string>)
    requires CleanSlots(cfg)
    ensures CleanViews(Views(cfg, texts, SlotKeys(cfg)))
  {
  }

  /** A tick clears exactly the reference slots and records every slot's
      seconds. */
  lemma TickClears(cfg: SbConfig, num: string, texts: map<string, string>, s: EngineState)
    requires CleanSlots(cfg)
    ensures var (s1, v, calls) := Tick(cfg, num, texts, s);
      && calls == ExpectedClears(cfg, num, v.clockSecs, s.lastPenalty, Views(cfg, texts, SlotKeys(cfg)))
      && forall i :: 0 <= i < |cfg.penalties| ==>
           PrevOf(s1.lastPenalty, cfg.penalties[i].0) == SlotView(cfg, texts, cfg.penalties[i].0).seconds
  {
    var clockSecs := ParseMmss(TGet(texts, cfg.clockField, "00:00"));
    var running := if clockSecs == Some(0) then false else s.running;
    var views := Views(cfg, texts, SlotKeys(cfg));
    CleanTickViews(cfg, texts);
    AutoClearSpec(cfg, num, clockSecs, EngineState(running, clockSecs, s.lastPenalty), views);
  }

  /** The auto-clear fires once: a second tick on the same reading clears
      nothing, whatever the first one did. */
  lemma SecondTickIsQuiet(cfg: SbConfig, num: string, texts: map<string, string>, s: EngineState, s': EngineState)
    requires CleanSlots(cfg)
    requires s'.lastPenalty == Tick(cfg, num, texts, s).0.lastPenalty
    ensures Tick(cfg, num, texts, s').2 == []
  {
    var views := Views(cfg, texts, SlotKeys(cfg));
    TickClears(cfg, num, texts, s);
    TickClears(cfg, num, texts, s');
    NothingFiresOnSeen(cfg, num, Tick(cfg, num, texts, s').1.clockSecs, s'.lastPenalty, views);
  }

  // ---------------------------------------------------------------
  // Start, pause and stop address the same penalties
  // ---------------------------------------------------------------

  /** The live fields depend only on each view's slot and seconds. */
  lemma {:induction false} LiveTimeFieldsAgree(cfg: SbConfig, a: seq<PenaltyView>, b: seq<PenaltyView>)
    requires |a| == |b|
    requires forall i :: 0 <= i < |a| ==> a[i].slot == b[i].slot && a[i].seconds == b[i].seconds
    ensures LiveTimeFields(cfg, a) == LiveTimeFields(cfg, b)
  {
    if |a| > 0 {
      LiveTimeFieldsAgree(cfg, a[1..], b[1..]);
    }
  }

  /** Two ticks on the same reading see the same clock and the same slot
      seconds, so they agree on the live fields. */
  lemma TicksAgree(cfg: SbConfig, num: string, texts: map<string, string>, s: EngineState, s': EngineState)
    ensures Tick(cfg, num, texts, s).1.clockSecs == Tick(cfg, num, texts, s').1.clockSecs
    ensures LiveTimeFields(cfg, Tick(cfg, num, texts, s).1.penalties)
      == LiveTimeFields(cfg, Tick(cfg, num, texts, s').1.penalties)
  {
    TickViews(cfg, num, texts, s);
    TickViews(cfg, num, texts, s');
    LiveTimeFieldsAgree(cfg, Tick(cfg, num, texts, s).1.penalties, Tick(cfg, num, texts, s').1.penalties);
  }

  /** On one reading: after a pause of a running clock (by toggle or by
      pause, both leave the same record), a toggle issues no clear and
      starts exactly the fields the pause stopped. */
  lemma ResumeOnSameReading(cfg: SbConfig, num: string, texts: map<string, string>, s: EngineState)
    requires CleanSlots(cfg)
    requires Tick(cfg, num, texts, s).1.clockSecs.Some? && Tick(cfg, num, texts, s).1.clockSecs.value > 0
    ensures var (s1, v1, c0) := Tick(cfg, num, texts, s);
      var (s2, v2, c2) := Tick(cfg, num, texts, s1.(running := false));
      && c2 == []
      && !s2.running
      && ToggleAfter(cfg, num, s2, v2) == (s2.(running := true),
           FnEach("StartCountdown", num, [cfg.clockField] + LiveTimeFields(cfg, v1.penalties)))
  {
    var (s1, v1, c0) := Tick(cfg, num, texts, s);
    var p := s1.(running := false);
    SecondTickIsQuiet(cfg, num, texts, s, p);
    TicksAgree(cfg, num, texts, s, p);
  }

  /** A view `toggle_clock` starts or pauses: positive seconds and a
      configured time field. */
  predicate LiveView(cfg: SbConfig, p: PenaltyView) {
    p.seconds.Some? && p.seconds.value > 0 && Truthy(PenaltyFields(cfg, p.slot).time)
  }

  /** Which views are live, position by position. */
  function LiveFlags(cfg: SbConfig, views: seq<PenaltyView>): (flags: seq<bool>)
    ensures |flags| == |views|
    ensures forall j :: 0 <= j < |views| ==> flags[j] == LiveView(cfg, views[j])
  {
    seq(|views|, j requires 0 <= j < |views| => LiveView(cfg, views[j]))
  }

  /** The positions from `i` on where `flags` holds, in increasing order. */
  function TrueIndices(flags: seq<bool>, i: nat): (ix: seq<nat>)
    requires i <= |flags|
    ensures forall k :: 0 <= k < |ix| ==> i <= ix[k] < |flags|
    decreases |flags| - i
  {
    if i == |flags| then []
    else if flags[i] then [i] + TrueIndices(flags, i + 1)
    else TrueIndices(flags, i + 1)
  }

  /** The positions of the live views, in increasing order. */
  function LiveIndices(cfg: SbConfig, views: seq<PenaltyView>): (ix: seq<nat>)
    ensures forall k :: 0 <= k < |ix| ==> ix[k] < |views|
  {
    TrueIndices(LiveFlags(cfg, views), 0)
  }

  /** The live positions are exactly the live views, each once and in
      view order. */
  lemma LiveIndicesSpec(cfg: SbConfig, views: seq<PenaltyView>)
    ensures forall k :: 0 <= k < |LiveIndices(cfg, views)| ==> LiveView(cfg, views[LiveIndices(cfg, views)[k]])
    ensures forall k, l :: 0 <= k < l < |LiveIndices(cfg, views)| ==>
      LiveIndices(cfg, views)[k] < LiveIndices(cfg, views)[l]
    ensures forall j :: 0 <= j < |views| && LiveView(cfg, views[j]) ==> j in LiveIndices(cfg, views)
  {
    var flags := LiveFlags(cfg, views);
    TrueIndicesHold(flags, 0);
    TrueIndicesIncreasing(flags, 0);
    TrueIndicesComplete(flags, 0);
  }

  lemma {:induction false} TrueIndicesHold(flags: seq<bool>, i: nat)
    requires i <= |flags|
    ensures forall k :: 0 <= k < |TrueIndices(flags, i)| ==> flags[TrueIndices(flags, i)[k]]
    decreases |flags| - i
  {
    if i < |flags| {
      TrueIndicesHold(flags, i + 1);
      var ix := TrueIndices(flags, i);
      var ix' := TrueIndices(flags, i + 1);
      if flags[i] {
        assert ix == [i] + ix';
        assert forall k :: 1 <= k < |ix| ==> ix[k] == ix'[k - 1];
      }
    }
  }

  lemma {:induction false} TrueIndicesIncreasing(flags: seq<bool>, i: nat)
    requires i <= |flags|
    ensures forall k, l :: 0 <= k < l < |TrueIndices(flags, i)| ==>
      TrueIndices(flags, i)[k] < TrueIndices(flags, i)[l]
    decreases |flags| - i
  {
    if i < |flags| {
      TrueIndicesIncreasing(flags, i + 1);
      var ix := TrueIndices(flags, i);
      var ix' := TrueIndices(flags, i + 1);
      if flags[i] {
        assert ix == [i] + ix';
        assert forall k :: 1 <= k < |ix| ==> ix[k] == ix'[k - 1];
      }
    }
  }

  lemma {:induction false} TrueIndicesComplete(flags: seq<bool>, i: nat)
    requires i <= |flags|
    ensures forall j :: i <= j < |flags| && flags[j] ==> j in TrueIndices(flags, i)
    decreases |flags| - i
  {
    if i < |flags| {
      TrueIndicesComplete(flags, i + 1);
    }
  }

  /** The live time fields are the time fields of the live views, one per
      view and in view order. */
  lemma {:induction false} LiveTimeFieldsByIndex(cfg: SbConfig, views: seq<PenaltyView>, flags: seq<bool>, i: nat)
    requires flags == LiveFlags(cfg, views) && i <= |views|
    ensures var ix := TrueIndices(flags, i);
      var fs := LiveTimeFields(cfg, views[i..]);
      && |fs| == |ix|
      && forall k :: 0 <= k < |ix| ==>
           LiveView(cfg, views[ix[k]]) && fs[k] == PenaltyFields(cfg, views[ix[k]].slot).time.value
    decreases |views| - i
  {
    if i < |views| {
      LiveTimeFieldsByIndex(cfg, views, flags, i + 1);
      LiveStep(cfg, views, i);
      var ix := TrueIndices(flags, i);
      var fs := LiveTimeFields(cfg, views[i..]);
      var ix' := TrueIndices(flags, i + 1);
      var fs' := LiveTimeFields(cfg, views[i + 1..]);
      if flags[i] {
        assert ix == [i] + ix';
        forall k | 0 <= k < |ix|
          ensures LiveView(cfg, views[ix[k]]) && fs[k] == PenaltyFields(cfg, views[ix[k]].slot).time.value
        {
          if k > 0 {
            assert ix[k] == ix'[k - 1] && fs[k] == fs'[k - 1];
          }
        }
      } else {
        assert ix == ix';
      }
    }
  }

  /** One step of the walk over the views. */
  lemma LiveStep(cfg: SbConfig, views: seq<PenaltyView>, i: nat)
    requires i < |views|
    ensures LiveView(cfg, views[i]) ==>
      LiveTimeFields(cfg, views[i..]) == [PenaltyFields(cfg, views[i].slot).time.value] + LiveTimeFields(cfg, views[i + 1..])
    ensures !LiveView(cfg, views[i]) ==>
      LiveTimeFields(cfg, views[i..]) == LiveTimeFields(cfg, views[i + 1..])
  {
    var rest := views[i..];
    assert rest[0] == views[i];
    assert rest[1..] == views[i + 1..];
  }

  /** `toggle_clock`'s decision on a tick: only the running flag changes,
      and it ends up set exactly when a stopped clock shows time left. A
      running clock is paused and a stopped one with time left started:
      the clock field first, then the time field of every live penalty
      view, once each and in view order. A stopped clock without time left
      gets no call. */
  lemma ToggleAfterSpec(cfg: SbConfig, num: string, s: EngineState, v: StateView)
    ensures ToggleAfter(cfg, num, s, v).0 == s.(running := !s.running && v.clockSecs.Some? && v.clockSecs.value > 0)
    ensures ToggleAfter(cfg, num, s, v).1 == [] <==> !s.running && (v.clockSecs.None? || v.clockSecs.value == 0)
    ensures var calls := ToggleAfter(cfg, num, s, v).1;
      var fn := if s.running then "PauseCountdown" else "StartCountdown";
      var ix := LiveIndices(cfg, v.penalties);
      calls != [] ==>
        && |calls| == 1 + |ix|
        && calls[0] == Fn(fn, num, cfg.clockField)
        && forall k :: 0 <= k < |ix| ==>
             LiveView(cfg, v.penalties[ix[k]]) && calls[k + 1] == Fn(fn, num, PenaltyFields(cfg, v.penalties[ix[k]].slot).time.value)
  {
    LiveTimeFieldsByIndex(cfg, v.penalties, LiveFlags(cfg, v.penalties), 0);
    assert v.penalties[0..] == v.penalties;
  }

  /** Toggling a clock the tick leaves running is exactly a pause: the
      same record and the same calls. */
  lemma ToggleWhileRunningIsPause(cfg: SbConfig, st: Status, s: EngineState)
    requires GetState(cfg, st, s).Ok? && GetState(cfg, st, s).value.0.running
    ensures Toggle(cfg, st, s) == Pause(cfg, st, s)
  {
  }

  /** Toggling a running clock and toggling again on the same reading
      pauses and then resumes the clock and the same penalties, with no
      clear in between. */
  lemma ToggleTwiceResumes(cfg: SbConfig, st: Status, s: EngineState)
    requires CleanSlots(cfg)
    requires GetState(cfg, st, s).Ok?
    requires s.running
    requires GetState(cfg, st, s).value.1.clockSecs.Some? && GetState(cfg, st, s).value.1.clockSecs.value > 0
    ensures Toggle(cfg, st, s).Ok? && Toggle(cfg, st, Toggle(cfg, st, s).value.0).Ok?
    ensures !Toggle(cfg, st, s).value.0.running
    ensures Toggle(cfg, st, Toggle(cfg, st, s).value.0).value.0.running
    ensures Toggle(cfg, st, s).value.1 == GetState(cfg, st, s).value.2
      + FnEach("PauseCountdown", SbNode(cfg, st).value.0,
               [cfg.clockField] + LiveTimeFields(cfg, GetState(cfg, st, s).value.1.penalties))
    ensures Toggle(cfg, st, Toggle(cfg, st, s).value.0).value.1
      == FnEach("StartCountdown", SbNode(cfg, st).value.0,
                [cfg.clockField] + LiveTimeFields(cfg, GetState(cfg, st, s).value.1.penalties))
  {
    ToggleWhileRunningIsPause(cfg, st, s);
    PauseThenToggleRuns(cfg, st, s);
    PauseThenToggleResumes(cfg, st, s);
  }


  /** A toggle on a resolved scoreboard is its tick and then the toggle
      proper, on the scoreboard's number and text table. */
  lemma ToggleOnTable(cfg: SbConfig, st: Status, s: EngineState, num: string, texts: map<string, string>)
    requires SbNode(cfg, st).Ok? && num == SbNode(cfg, st).value.0 && texts == TextTable(SbNode(cfg, st).value.1.texts)
    ensures Toggle(cfg, st, s).Ok?
    ensures var (s1, v, c0) := Tick(cfg, num, texts, s);
      Toggle(cfg, st, s).value == (ToggleAfter(cfg, num, s1, v).0, c0 + ToggleAfter(cfg, num, s1, v).1)
  {
  }

  /** A pause on a resolved scoreboard leaves the record of its tick with
      the flag cleared. */
  lemma PauseOnTable(cfg: SbConfig, st: Status, s: EngineState, num: string, texts: map<string, string>)
    requires SbNode(cfg, st).Ok? && num == SbNode(cfg, st).value.0 && texts == TextTable(SbNode(cfg, st).value.1.texts)
    ensures Pause(cfg, st, s).Ok?
    ensures Pause(cfg, st, s).value.0 == Tick(cfg, num, texts, s).0.(running := false)
    ensures GetState(cfg, st, s).value == Tick(cfg, num, texts, s)
  {
  }

  /** After a pause, a toggle on the same reading runs the clock again. */
  lemma PauseThenToggleRuns(cfg: SbConfig, st: Status, s: EngineState)
    requires CleanSlots(cfg)
    requires GetState(cfg, st, s).Ok?
    requires GetState(cfg, st, s).value.1.clockSecs.Some? && GetState(cfg, st, s).value.1.clockSecs.value > 0
    ensures Pause(cfg, st, s).Ok? && Toggle(cfg, st, Pause(cfg, st, s).value.0).Ok?
    ensures var s1 := Pause(cfg, st, s).value.0;
      !s1.running && Toggle(cfg, st, s1).value.0.running
  {
    var num := SbNode(cfg, st).value.0;
    var texts := TextTable(SbNode(cfg, st).value.1.texts);
    PauseOnTable(cfg, st, s, num, texts);
    var p := Tick(cfg, num, texts, s).0.(running := false);
    assert Pause(cfg, st, s).value.0 == p;
    ResumeOnSameReading(cfg, num, texts, s);
    var t2 := Tick(cfg, num, texts, p);
    ToggleOnTable(cfg, st, p, num, texts);
    assert Toggle(cfg, st, p).value.0 == ToggleAfter(cfg, num, t2.0, t2.1).0;
  }

  /** After a pause, a toggle on the same reading clears nothing and starts
      exactly the clock and penalties the pause stopped (`Pause` pauses the
      clock and the live fields of its tick). */
  lemma PauseThenToggleResumes(cfg: SbConfig, st: Status, s: EngineState)
    requires CleanSlots(cfg)
    requires GetState(cfg, st, s).Ok?
    requires GetState(cfg, st, s).value.1.clockSecs.Some? && GetState(cfg, st, s).value.1.clockSecs.value > 0
    ensures Pause(cfg, st, s).Ok? && Toggle(cfg, st, Pause(cfg, st, s).value.0).Ok?
    ensures var s1 := Pause(cfg, st, s).value.0;
      var num := SbNode(cfg, st).value.0;
      var fields := [cfg.clockField] + LiveTimeFields(cfg, GetState(cfg, st, s).value.1.penalties);
      Toggle(cfg, st, s1).value.1 == FnEach("StartCountdown", num, fields)
  {
    var num := SbNode(cfg, st).value.0;
    var texts := TextTable(SbNode(cfg, st).value.1.texts);
    PauseOnTable(cfg, st, s, num, texts);
    ResumeOnSameReading(cfg, num, texts, s);
    ToggleOnTable(cfg, st, Pause(cfg, st, s).value.0, num, texts);
  }

  /** A resolved scoreboard's state is the tick of its text table. */
  lemma GetStateOnTable(cfg: SbConfig, st: Status, s: EngineState, num: string, texts: map<string, string>)
    requires SbNode(cfg, st).Ok? && num == SbNode(cfg, st).value.0 && texts == TextTable(SbNode(cfg, st).value.1.texts)
    ensures GetState(cfg, st, s).Ok? && GetState(cfg, st, s).value == Tick(cfg, num, texts, s)
  {
  }

  /** Toggling a stopped clock that reads no time or zero is refused: the
      only calls are the tick's, and at zero there are none. */
  lemma ToggleRefusesWithoutTime(cfg: SbConfig, st: Status, s: EngineState)
    requires GetState(cfg, st, s).Ok?
    requires !s.running
    requires GetState(cfg, st, s).value.1.clockSecs.None? || GetState(cfg, st, s).value.1.clockSecs == Some(0)
    ensures Toggle(cfg, st, s).Ok?
    ensures Toggle(cfg, st, s).value.0 == GetState(cfg, st, s).value.0
    ensures Toggle(cfg, st, s).value.1 == GetState(cfg, st, s).value.2
    ensures !Toggle(cfg, st, s).value.0.running
    ensures GetState(cfg, st, s).value.1.clockSecs == Some(0) ==> Toggle(cfg, st, s).value.1 == []
  {
    var num := SbNode(cfg, st).value.0;
    var texts := TextTable(SbNode(cfg, st).value.1.texts);
    GetStateOnTable(cfg, st, s, num, texts);
    ToggleOnTable(cfg, st, s, num, texts);
    var t := Tick(cfg, num, texts, s);
    assert ToggleAfter(cfg, num, t.0, t.1) == (t.0, []);
    assert t.2 + [] == t.2;
  }

  /** A stop at zero on a resolved scoreboard is its tick and then the
      stop proper. */
  lemma StopAtZeroOnTable(cfg: SbConfig, st: Status, s: EngineState, num: string, texts: map<string, string>)
    requires SbNode(cfg, st).Ok? && num == SbNode(cfg, st).value.0 && texts == TextTable(SbNode(cfg, st).value.1.texts)
    ensures StopAtZero(cfg, st, s).Ok?
    ensures var (s1, v, c0) := Tick(cfg, num, texts, s);
      StopAtZero(cfg, st, s).value == (StopAtZeroAfter(cfg, num, s1, v).0, c0 + StopAtZeroAfter(cfg, num, s1, v).1)
  {
  }

  /** `stop_clock_and_penalties_at_zero` does nothing of its own unless the
      clock reads exactly 0. */
  lemma StopAtZeroOnlyAtZero(cfg: SbConfig, st: Status, s: EngineState)
    requires GetState(cfg, st, s).Ok?
    requires GetState(cfg, st, s).value.1.clockSecs != Some(0)
    ensures StopAtZero(cfg, st, s).Ok?
    ensures StopAtZero(cfg, st, s).value.0 == GetState(cfg, st, s).value.0
    ensures StopAtZero(cfg, st, s).value.1 == GetState(cfg, st, s).value.2
  {
    var num := SbNode(cfg, st).value.0;
    var texts := TextTable(SbNode(cfg, st).value.1.texts);
    GetStateOnTable(cfg, st, s, num, texts);
    StopAtZeroOnTable(cfg, st, s, num, texts);
    var t := Tick(cfg, num, texts, s);
    assert StopAtZeroAfter(cfg, num, t.0, t.1) == (t.0, []);
    assert t.2 + [] == t.2;
  }

  /** No call of the list writes a time. */
  predicate WritesNoTime(calls: seq<Call>) {
    forall i :: 0 <= i < |calls| ==> calls[i].fn != "SetText" && calls[i].fn != "SetCountdown"
  }

  lemma StopAndPausesWriteNoTime(num: string, clock: string, fields: seq<string>)
    ensures WritesNoTime([Fn("StopCountdown", num, clock)] + FnEach("PauseCountdown", num, fields))
  {
    var calls := [Fn("StopCountdown", num, clock)] + FnEach("PauseCountdown", num, fields);
    forall i | 0 <= i < |calls|
      ensures calls[i].fn != "SetText" && calls[i].fn != "SetCountdown"
    {
      assert calls[i].fn[1] == 't' || calls[i].fn[1] == 'a';
    }
  }

  /** At zero, the tick clears nothing, the flag ends cleared, and the
      calls are the clock's stop and one pause per configured time field:
      no time is written. */
  lemma StopAtZeroAtZero(cfg: SbConfig, st: Status, s: EngineState)
    requires GetState(cfg, st, s).Ok?
    requires GetState(cfg, st, s).value.1.clockSecs == Some(0)
    ensures StopAtZero(cfg, st, s).Ok?
    ensures !StopAtZero(cfg, st, s).value.0.running
    ensures StopAtZero(cfg, st, s).value.1 == [Fn("StopCountdown", SbNode(cfg, st).value.0, cfg.clockField)]
      + FnEach("PauseCountdown", SbNode(cfg, st).value.0, ConfiguredTimeFields(cfg, SlotKeys(cfg)))
    ensures WritesNoTime(StopAtZero(cfg, st, s).value.1)
  {
    var num := SbNode(cfg, st).value.0;
    var texts := TextTable(SbNode(cfg, st).value.1.texts);
    GetStateOnTable(cfg, st, s, num, texts);
    StopAtZeroOnTable(cfg, st, s, num, texts);
    var t := Tick(cfg, num, texts, s);
    var calls := StopAtZero(cfg, st, s).value.1;
    assert t.2 == [];
    assert calls == [Fn("StopCountdown", num, cfg.clockField)]
                    + FnEach("PauseCountdown", num, ConfiguredTimeFields(cfg, SlotKeys(cfg)));
    StopAndPausesWriteNoTime(num, cfg.clockField, ConfiguredTimeFields(cfg, SlotKeys(cfg)));
  }

  // ---------------------------------------------------------------
  // Adjustment
  // ---------------------------------------------------------------

  /** Adjusting the positive fields among `fields` targets exactly them,
      each with the given value. */
  lemma AdjustEachOnPositive(st: Status, num: string, fields: seq<string>, value: string)
    ensures var calls := AdjustEach(num, PositiveFields(st, num, fields), value);
      && (forall i :: 0 <= i < |calls| ==>
            && calls[i].fn == "AdjustCountdown"
            && calls[i].params[2] == ("Value", value)
            && PositiveTime(st, num, calls[i].params[1].1)
            && calls[i].params[1].1 in fields)
      && (forall i :: 0 <= i < |fields| && PositiveTime(st, num, fields[i]) ==>
            exists j :: 0 <= j < |calls| && calls[j].params[1].1 == fields[i])
  {
    var pos := PositiveFields(st, num, fields);
    var calls := AdjustEach(num, pos, value);
    forall i | 0 <= i < |fields| && PositiveTime(st, num, fields[i])
      ensures exists j :: 0 <= j < |calls| && calls[j].params[1].1 == fields[i]
    {
      var j :| 0 <= j < |pos| && pos[j] == fields[i];
      assert calls[j].params[1].1 == pos[j];
    }
  }

  /** Every adjustment goes to a field holding a positive time, carries
      the delta as its value, and every such field among the clock and the
      penalty time fields gets one. */
  lemma AdjustTargets(cfg: SbConfig, st: Status, delta: int)
    requires delta != 0 && AdjustTimes(cfg, st, delta).Ok?
    ensures var num := ScoreboardNumber(st, cfg.input).value;
      var calls := AdjustTimes(cfg, st, delta).value;
      var fields := [cfg.clockField] + ConfiguredTimeFields(cfg, SlotKeys(cfg));
      && (forall i :: 0 <= i < |calls| ==>
            && calls[i].fn == "AdjustCountdown"
            && calls[i].params[2] == ("Value", IntToString(delta))
            && PositiveTime(st, num, calls[i].params[1].1)
            && calls[i].params[1].1 in fields)
      && (forall i :: 0 <= i < |fields| && PositiveTime(st, num, fields[i]) ==>
            exists j :: 0 <= j < |calls| && calls[j].params[1].1 == fields[i])
      && ParseInt(IntToString(delta)) == Some(delta)
  {
    var num := ScoreboardNumber(st, cfg.input).value;
    var fields := [cfg.clockField] + ConfiguredTimeFields(cfg, SlotKeys(cfg));
    AdjustEachOnPositive(st, num, fields, IntToString(delta));
    ParseIntToString(delta);
  }

  // ---------------------------------------------------------------
  // The setters write normal times
  // ---------------------------------------------------------------

  /** The time `set_match_time` writes reads back as the time it parsed,
      and setting the written text again issues the same calls. */
  lemma SetMatchTimeNormalises(cfg: SbConfig, st: Status, s: EngineState, timeText: string)
    requires SetMatchTime(cfg, st, s, timeText).Ok?
    ensures var calls := SetMatchTime(cfg, st, s, timeText).value.1;
      ParseMmss(calls[2].params[2].1) == ParseMmss(timeText)
    ensures SetMatchTime(cfg, st, s, FormatMmss(ParseMmss(timeText).value)) == SetMatchTime(cfg, st, s, timeText)
  {
  }

  /** The visibility switches never start a countdown. */
  lemma VisibilityNeverStarts(sfx: string, num: string, f: Fields)
    requires Truthy(f.time) && Truthy(f.number)
    ensures var r := VisibilityCalls(sfx, num, f);
      forall i :: 0 <= i < |r| ==> r[i].fn != "StartCountdown"
  {
    var r := VisibilityCalls(sfx, num, f);
    forall i | 0 <= i < |r|
      ensures r[i].fn != "StartCountdown"
    {
      assert r[i].fn[1] == 'e';
    }
  }

  /** The fixed head of the calls `set_penalty` sends and the record it
      leaves. */
  lemma SetPenaltyHead(cfg: SbConfig, st: Status, s: EngineState, slot: string, number: string, name: string, timeText: string)
    requires SetPenalty(cfg, st, s, slot, number, name, timeText).Ok?
    ensures |SetPenalty(cfg, st, s, slot, number, name, timeText).value.1| >= 4
    ensures SetPenalty(cfg, st, s, slot, number, name, timeText).value.1[2]
      == FnV("SetText", ScoreboardNumber(st, cfg.input).value, PenaltyFields(cfg, slot).time.value,
             FormatMmss(ParseMmss(timeText).value))
    ensures SetPenalty(cfg, st, s, slot, number, name, timeText).value.1[3]
      == FnV("SetText", ScoreboardNumber(st, cfg.input).value, PenaltyFields(cfg, slot).number.value, number)
    ensures PrevOf(SetPenalty(cfg, st, s, slot, number, name, timeText).value.0.lastPenalty, Upper(slot))
      == ParseMmss(timeText)
  {
    var r := SetPenalty(cfg, st, s, slot, number, name, timeText).value;
    var f := PenaltyFields(cfg, slot);
    var num := ScoreboardNumber(st, cfg.input).value;
    var secs := ParseMmss(timeText).value;
    var t := FormatMmss(secs);
    var head := [Fn("StopCountdown", num, f.time.value),
                 FnV("SetCountdown", num, f.time.value, t),
                 FnV("SetText", num, f.time.value, t),
                 FnV("SetText", num, f.number.value, number)];
    var vis := VisibilityCalls("On", num, f);
    var tail := if s.running && secs > 0 then [Fn("StartCountdown", num, f.time.value)] else [];
    assert r.1 == head + vis + tail;
    assert r.1[2] == head[2] && r.1[3] == head[3];
  }

  /** `set_penalty` records the seconds that the time it writes reads as,
      under the upper-cased slot, and writes the number as given. */
  lemma SetPenaltyRecordsWritten(cfg: SbConfig, st: Status, s: EngineState, slot: string, number: string, name: string, timeText: string)
    requires SetPenalty(cfg, st, s, slot, number, name, timeText).Ok?
    ensures |SetPenalty(cfg, st, s, slot, number, name, timeText).value.1| >= 4
    ensures |SetPenalty(cfg, st, s, slot, number, name, timeText).value.1[2].params| == 3
    ensures |SetPenalty(cfg, st, s, slot, number, name, timeText).value.1[3].params| == 3
    ensures var calls := SetPenalty(cfg, st, s, slot, number, name, timeText).value.1;
      ParseMmss(calls[2].params[2].1) == ParseMmss(timeText)
    ensures var (s1, calls) := SetPenalty(cfg, st, s, slot, number, name, timeText).value;
      ParseMmss(calls[2].params[2].1) == PrevOf(s1.lastPenalty, Upper(slot))
    ensures SetPenalty(cfg, st, s, slot, number, name, timeText).value.1[3].params[2].1 == number
  {
    SetPenaltyHead(cfg, st, s, slot, number, name, timeText);
    var secs := ParseMmss(timeText).value;
    var w := SetPenalty(cfg, st, s, slot, number, name, timeText).value.1[2].params[2].1;
    assert w == FormatMmss(secs);
    assert ParseMmss(w) == Some(secs);
  }

  /** `set_penalty` ends with a start exactly when the clock is believed to
      run and the time is positive. */
  lemma SetPenaltyStartsIff(cfg: SbConfig, st: Status, s: EngineState, slot: string, number: string, name: string, timeText: string)
    requires SetPenalty(cfg, st, s, slot, number, name, timeText).Ok?
    ensures var calls := SetPenalty(cfg, st, s, slot, number, name, timeText).value.1;
      s.running && ParseMmss(timeText).value > 0 <==> calls[|calls| - 1].fn == "StartCountdown"
  {
    var calls := SetPenalty(cfg, st, s, slot, number, name, timeText).value.1;
    var f := PenaltyFields(cfg, slot);
    var num := ScoreboardNumber(st, cfg.input).value;
    var vis := VisibilityCalls("On", num, f);
    var head := [Fn("StopCountdown", num, f.time.value),
         FnV("SetCountdown", num, f.time.value, FormatMmss(ParseMmss(timeText).value)),
         FnV("SetText", num, f.time.value, FormatMmss(ParseMmss(timeText).value)),
         FnV("SetText", num, f.number.value, number)];
    if !(s.running && ParseMmss(timeText).value > 0) {
      assert calls == head + vis + [];
      VisibilityNeverStarts("On", num, f);
      assert calls[|calls| - 1] == vis[|vis| - 1];
    }
  }

  /** Clearing a penalty that has its fields records 0 under the
      upper-cased slot and writes a time that reads as 0. */
  lemma ClearAfterSet(cfg: SbConfig, st: Status, s: EngineState, slot: string, number: string, name: string, timeText: string)
    requires SetPenalty(cfg, st, s, slot, number, name, timeText).Ok?
    ensures var s1 := SetPenalty(cfg, st, s, slot, number, name, timeText).value.0;
      && ClearPenalty(cfg, st, s1, slot).Ok?
      && PrevOf(ClearPenalty(cfg, st, s1, slot).value.0.lastPenalty, Upper(slot)) == Some(0)
    ensures var s1 := SetPenalty(cfg, st, s, slot, number, name, timeText).value.0;
      |ClearPenalty(cfg, st, s1, slot).value.1| >= 3 && |ClearPenalty(cfg, st, s1, slot).value.1[2].params| == 3
    ensures var s1 := SetPenalty(cfg, st, s, slot, number, name, timeText).value.0;
      && ClearPenalty(cfg, st, s1, slot).value.1[2].params[2].1 == "00:00"
      && ParseMmss(ClearPenalty(cfg, st, s1, slot).value.1[2].params[2].1) == Some(0)
  {
    ZeroText();
  }

  /** A slot set and then cleared is hidden on exactly the layers that
      were shown. */
  lemma ClearHidesWhatSetShowed(cfg: SbConfig, st: Status, s: EngineState, slot: string, number: string, name: string, timeText: string)
    requires SetPenalty(cfg, st, s, slot, number, name, timeText).Ok?
    ensures var calls := SetPenalty(cfg, st, s, slot, number, name, timeText).value.1;
      var s1 := SetPenalty(cfg, st, s, slot, number, name, timeText).value.0;
      var f := PenaltyFields(cfg, slot);
      var num := ScoreboardNumber(st, cfg.input).value;
      && ClearPenalty(cfg, st, s1, slot).Ok?
      && calls[4..4 + |VisibilityCalls("On", num, f)|] == VisibilityCalls("On", num, f)
      && ClearPenalty(cfg, st, s1, slot).value.1[4..] == VisibilityCalls("Off", num, f)
  {
  }

  // ---------------------------------------------------------------
  // Score
  // ---------------------------------------------------------------

  /** `_change_score` computes what the client's `increment_score` does
      on the scoreboard input, and the score it writes reads back as the
      score it returns. */
  lemma ChangeScoreIsIncrementScore(cfg: SbConfig, st: Status, field: string, delta: int)
    requires ChangeScore(cfg, st, field, delta).Ok?
    ensures IncrementScore(st, ByName(cfg.input), field, delta).Ok?
    ensures var (c, n) := ChangeScore(cfg, st, field, delta).value;
      && IncrementScore(st, ByName(cfg.input), field, delta).value == (c, n as int)
      && ParseInt(c.params[2].1) == Some(n as int)
  {
    var (c, n) := ChangeScore(cfg, st, field, delta).value;
    var num := ScoreboardNumber(st, cfg.input).value;
    var cur := IntOrZero(GetTextFromTitle(st, ByName(cfg.input), field));
    var nv := if cur + delta > 0 then cur + delta else 0;
    assert n == nv;
    assert SetText(st, ByName(cfg.input), field, IntToString(nv)) == Ok(c);
    ParseIntToString(n);
  }

  /** A goal raises a valid score by exactly one. */
  lemma GoalAddsOne(cfg: SbConfig, st: Status, k: nat)
    requires HomeGoal(cfg, st).Ok? && AwayGoal(cfg, st).Ok?
    ensures ParseInt(GetTextFromTitle(st, ByName(cfg.input), cfg.homeScoreField)) == Some(k) ==>
      HomeGoal(cfg, st).value.1 == k + 1
    ensures ParseInt(GetTextFromTitle(st, ByName(cfg.input), cfg.awayScoreField)) == Some(k) ==>
      AwayGoal(cfg, st).value.1 == k + 1
  {
  }
}
