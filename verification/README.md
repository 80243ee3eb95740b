# vMix scoreboard controller — a Dafny model

The system is a desktop tool for ice-hockey productions. It drives a vMix
title input, the scoreboard, over vMix's HTTP API. It runs the match clock and
the penalty clocks as vMix countdowns and writes the scores, shots, period and
empty-net flags into the title's text fields. The XML status vMix returns is
read back to learn what the scoreboard shows. A JSON configuration names the
input and its fields.

This project models the decision logic of that tool as pure functions. The
vMix XML status is a value (`Status`, a list of inputs with their text
fields). Every client call becomes a value in an ordered list of calls the
operation returns, and the controller's own memory is an explicit state that
goes in and comes out. The main parts are:

- `LegacyScoreboard` is the legacy scoreboard engine: `get_state` with its
  automatic penalty clearing, clock toggling, stop at 00:00, time adjustment,
  match-time setting, scores, penalties, pause, overlay and empty net.
  `ScoreboardFields` holds the configuration slice and the per-slot field
  names it reads.
- `ScoreboardTime` and `TimeParsers` are the four time parsers in the code
  and the `MM:SS` formatter.
- `VmixCall`, `LegacyClient` and `ApiTypes` cover URL building, input
  resolution, text lookup and score increments of the clients.
- `LegacyClock` is the set-match-time path of the legacy clock controller.
  `PenaltyAlert` is the multiview alert of the newer penalty controller.
- `JsonDict`, `ConfigMerge` and `ConfigRepair` hold JSON values with
  Python-dict semantics, the two soft merges of loaded configuration into
  the defaults, and the schema repair.
- `AppClient`, `GoalControl`, `ShotsControl`, `EmptyGoalControl` and
  `ScoreCache` are the newer controllers.
- `GuiLogic` and `Roster` cover the pure decisions inside the Tk window and
  the penalty player picker.

Python semantics the model spells out:

- a dict is an ordered list of entries, and assigning to an existing key
  replaces its value in place;
- `int()` accepts surrounding whitespace and a sign;
- truthiness follows Python's rules;
- the code raises where Python would (`KeyError`, `TypeError`,
  `AttributeError`, `ValueError` and `RuntimeError` become an `Error` value).

Where a controller changes its state before it raises, the `Outcome` it
returns carries the new state, the calls made so far and the error.

Two behaviours are easy to misread, and the model follows the code in both:

- stopping the clock at 00:00 pauses the countdowns and resets nothing;
- the penalty auto-clear happens inside `get_state`, and only while the
  match clock reads more than zero or cannot be read.

## Model

| member | source | states |
|---|---|---|
| ScoreboardTime.FormatMmss | legacy/scoreboard_controller.py:44-49 | The formatted text parses back to the seconds, with negatives clamped to 0; it is five characters below 100 minutes and "00:00" for anything ≤ 0 |
| ScoreboardTime.FormatRoundTrip | legacy/scoreboard_controller.py:26-49 | Parsing the zero-padded text of any n ≥ 0 gives n back |
| ScoreboardTime.NormaliseIsStable | legacy/scoreboard_controller.py:26-49 | Re-formatting a parsed time and parsing it again gives the same seconds |
| ScoreboardTime.FormatInjective | legacy/scoreboard_controller.py:44-49 | Two second counts with the same text are equal |
| ScoreboardTime.ParseTwoParts | legacy/scoreboard_controller.py:26-41 | For "a:b" without spaces or further colons: minutes·60 + seconds when both are integers in range, otherwise no value |
| ScoreboardTime.ParseMmssNeedsColon | legacy/scoreboard_controller.py:26-41 | Any text without a colon, the empty text included, is not a time |
| ScoreboardTime.RejectsThreePieces | legacy/scoreboard_controller.py:26-41 | Any "a:b:c" of colon-free pieces without spaces is not a time, whatever the pieces read as |
| ScoreboardTime.ParseMmssOfIntegers | legacy/scoreboard_controller.py:26-41 | For all integers m and s, "m:s" is a time iff m ≥ 0 and 0 ≤ s ≤ 59, and then it is 60m + s: sixty or more seconds and negative minutes are refused |
| ScoreboardTime.ParseMmssPlusSign | legacy/scoreboard_controller.py:26-41 | For all m, s ≥ 0, "+m:s" reads as "m:s" does, since int() accepts the sign: 60m + s when s ≤ 59, otherwise not a time |
| TimeParsers.ParseClock | legacy/clock_controller.py:7-48 | The clock parser never gives a negative value, gives nothing for empty text and 0 for the zero literals |
| TimeParsers.ParseGraphics | legacy/graphics_controller.py:9-32 | The graphics parser gives nothing for missing or blank text |
| TimeParsers.PenaltySeconds | controllers/penalty_controller.py:90-113 | The penalty parser gives 0 for blank text, for a colon form without exactly two parts and for a non-integer |
| TimeParsers.ClockAgreesWithStrict | legacy/clock_controller.py:7-48 | On every text the scoreboard parser accepts, the clock parser gives the same seconds |
| TimeParsers.GraphicsAgreesWithStrict | legacy/graphics_controller.py:9-32 | On every text the scoreboard parser accepts, the graphics parser gives the same seconds |
| TimeParsers.PenaltyAgreesWithStrict | controllers/penalty_controller.py:90-113 | On every text the scoreboard parser accepts, the penalty parser gives the same seconds |
| TimeParsers.SecondsPastFiftyNine | legacy/clock_controller.py:7-48 | For every "m:s" with m ≥ 0 and s ≥ 60, the scoreboard parser refuses the text while the clock, graphics and penalty parsers all read 60m + s |
| TimeParsers.DecimalReading | legacy/graphics_controller.py:9-32 | For all digit strings w (non-empty) and f, "w.f" is int(w) for the clock and graphics parsers, 0 for the penalty parser and no time for the scoreboard parser |
| TimeParsers.NegativeReading | controllers/penalty_controller.py:90-113 | For every i < 0, str(i) is i for the graphics and penalty parsers, and no value for the clock and scoreboard parsers |
| TimeParsers.ThreeParts | legacy/clock_controller.py:7-48 | Every "a:b:c" of colon-free pieces without whitespace is no value for the scoreboard, clock and graphics parsers and 0 for the penalty parser |
| TimeParsers.ParseClockBareNumber | legacy/clock_controller.py:7-48 | A bare natural number is read as that many seconds |
| TimeParsers.ParseClockDecimal | legacy/clock_controller.py:7-48 | "w.f" is read as the whole part w, truncated |
| TimeParsers.ParseGraphicsDecimal | legacy/graphics_controller.py:9-32 | "[-]w.f" is read as ±w, truncated toward zero |
| TimeParsers.PenaltySecondsTwoParts | controllers/penalty_controller.py:90-113 | "a:b" is a·60 + b when both are integers, of any sign, and 0 otherwise |
| TimeParsers.PenaltySecondsBareInteger | controllers/penalty_controller.py:90-113 | The decimal text of any integer is read as that integer |
| VmixCall.PutSpec | legacy/vmix_client.py:163-176 | Assigning into the query dict keeps keys distinct, adds exactly that key, and changes no other key's value |
| VmixCall.CallQuerySpec | legacy/vmix_client.py:163-176 | The query starts with Function; every non-None keyword argument appears once as its text and None ones are dropped |
| VmixCall.AddParamsSpec | legacy/vmix_client.py:163-176 | After the keyword arguments are added, each key holds its last non-None value as text, and a key no argument names keeps its value |
| VmixCall.FnVQuery | legacy/vmix_client.py:163-176 | A call with input, field and value becomes exactly Function, Input, SelectedName, Value in that order |
| VmixCall.QuotePlus | legacy/vmix_client.py:39-46 | Percent-encoding only emits unreserved characters, '+' and '%' escapes |
| VmixCall.QuotePlusRoundTrip | legacy/vmix_client.py:39-46 | Decoding the encoding of any string gives back its UTF-8 bytes |
| VmixCall.EncodePairSplits | legacy/vmix_client.py:39-46 | An encoded pair holds no '&' and splits at '=' into the two encoded halves |
| VmixCall.UrlencodeSplits | legacy/vmix_client.py:39-46 | Splitting the query string at '&' gives back the encoded pairs one by one |
| VmixCall.NormalisePath | legacy/vmix_client.py:39-46 | The path gains a leading '/' exactly when it lacks one |
| VmixCall.BuildUrlShape | legacy/vmix_client.py:39-46 | The URL is http://host:port/path, followed by '?' and the pairs only when parameters exist |
| LegacyClient.FindInputNumber | legacy/vmix_client.py:74-102 | An int is its own number; a digit string is itself, stripped; a name resolves iff some input's title, short title or key matches it, stripped and lower-cased, and then gives digits |
| LegacyClient.FindByNameIsFirstMatch | legacy/vmix_client.py:74-102 | Name resolution returns the number of the first matching input |
| LegacyClient.ResolvedNumberIsStable | legacy/vmix_client.py:74-102 | Resolving an already-resolved number gives it back |
| LegacyClient.FindInputNode | legacy/vmix_client.py:104-112 | The node found is the first status input whose number is the resolved one; nothing is found when the number does not resolve or no input carries it |
| LegacyClient.GetTextFromTitle | legacy/vmix_client.py:114-124 | The text is the stripped text of the first field with that name, and "" when the input or field is missing |
| LegacyClient.SetValue | legacy/vmix_client.py:129-158 | set_text and set_countdown raise ValueError iff the input does not resolve, and otherwise send their function with the resolved number, field and value |
| LegacyClient.Overlay | legacy/vmix_client.py:181-200 | The overlay call fails iff the input does not resolve, and carries only the resolved Input |
| LegacyClient.IncrementScore | legacy/vmix_client.py:204-218 | The new score is max(0, current + delta), with non-integer text read as 0, so 0 whenever current + delta ≤ 0; the call is SetText on the resolved input number and the field, with the new score's text as Value; it fails iff the input does not resolve |
| LegacyClient.IncrementScoreWritesResult | legacy/vmix_client.py:204-218 | The written Value parses back to the returned score |
| LegacyClient.ScoreboardNumber | legacy/scoreboard_controller.py:69-73 | The scoreboard number is the resolved input, and a RuntimeError naming the input when it does not resolve |
| LegacyClient.TextThroughResolved | legacy/vmix_client.py:114-124 | Reading through the resolved number gives the same text as reading through the name |
| ApiTypes.GetText | core/vmix_api_types.py:48-52 | The value of the first text field with the name, or "" |
| ApiTypes.GetImage | core/vmix_api_types.py:54-58 | The source of the first image field with the name, or "" |
| ApiTypes.FindInputByNumber | core/vmix_api_types.py:69-73 | The first input with the number, and none iff no input has it |
| ApiTypes.FindInput | core/vmix_api_types.py:75-86 | An int looks up by number; a string, stripped and lower-cased, looks up the first input whose lower-cased title or short title equals it, never by number |
| ApiTypes.NumericTextIsNotANumber | core/vmix_api_types.py:75-86 | A digit string that is no title finds nothing, although the input with that number exists |
| LegacyClock.SetMatchTime | legacy/clock_controller.py:76-87 | An unparsable time raises ValueError and a missing scoreboard RuntimeError; otherwise it sends Stop, SetCountdown and SetText with the normalised MM:SS |
| LegacyClock.SetMatchTimeWritesReading | legacy/clock_controller.py:76-87 | The text written parses back, under both parsers, to the seconds that were asked for |
| LegacyClock.SetMatchTimeIsStable | legacy/clock_controller.py:76-87 | Setting the normalised text makes the same calls as setting the original |
| PenaltyAlert.ReadPenalty | controllers/penalty_controller.py:38-58 | Each configured field is read as its stripped text, and as "" when it is missing or the read raises |
| PenaltyAlert.AutoRefreshMv | controllers/penalty_controller.py:115-148 | A missing time entry raises KeyError. A missing away time comes after the home side has already been switched. The refresh ends without error iff all four times are present and no overlay call fails, and then the state and calls are those of the edge logic |
| PenaltyAlert.RefusedHomeKeepsState | controllers/penalty_controller.py:128-135 | A failing home overlay call raises before `overlay_home_on` is set: the state is unchanged and the away side is not looked at |
| PenaltyAlert.LateErrorKeepsHome | controllers/penalty_controller.py:128-148 | After a missing away time or a failing away call, the home belief is its condition, the home call was made, and the away belief is unchanged |
| PenaltyAlert.RefusedCallIsLast | controllers/penalty_controller.py:128-148 | A failing overlay call is the last call made, and its exception is the one the refresh ends with |
| PenaltyAlert.RepeatIsQuiet | controllers/penalty_controller.py:115-148 | A second refresh on the same readings sends nothing |
| PenaltyAlert.SidesIndependent | controllers/penalty_controller.py:115-148 | The calls on each multiview index depend only on that side's flag and times |
| PenaltyAlert.AlertOnWrittenTimes | controllers/penalty_controller.py:124-140 | For MM:SS readings, a side is alerted iff one of its penalties has 1..5 seconds left |
| PenaltyAlert.AlertOnBareNumbers | controllers/penalty_controller.py:90-140 | The same for bare integer readings, negatives included |
| ScoreboardFields.SlotKeys | legacy/scoreboard_controller.py:208-210 | The slots are the penalties keys, in dict order |
| ScoreboardFields.SlotConfig | legacy/scoreboard_controller.py:75-133 | A slot's config is its entry in penalties, or an empty dict |
| ScoreboardFields.Or | legacy/scoreboard_controller.py:75-133 | `a or b` is a when truthy, otherwise b |
| ScoreboardFields.DefaultFields | legacy/scoreboard_controller.py:75-133 | H1, H2, A1 and A2 have all four layout defaults; any other slot has none |
| ScoreboardFields.PenaltyFields | legacy/scoreboard_controller.py:75-133 | Present keys override the layout defaults, and the time background falls back through time_bg_field, then bg_field, then the layout; an unconfigured slot gets the defaults |
| ScoreboardFields.PenaltyFieldsFallbacks | legacy/scoreboard_controller.py:75-133 | Absent time, number and name keys give the layout's fields; the time background is bg_field when time_bg_field is not set and bg_field is, and the layout's when neither is; the number background is the layout's unless number_bg_field is set |
| ScoreboardFields.PenaltyFieldsIgnoreCase | legacy/scoreboard_controller.py:75-133 | Slot names are upper-cased before lookup |
| ScoreboardFields.UnconfiguredSlot | legacy/scoreboard_controller.py:75-133 | An unconfigured slot has time and number fields iff it is a layout slot |
| ScoreboardFields.TextTable | legacy/scoreboard_controller.py:184-188 | The text table has a key for every text field name and no other |
| ScoreboardFields.LastFieldWins | legacy/scoreboard_controller.py:184-188 | A name's entry is the stripped text of its last field |
| ScoreboardFields.DuplicateFieldReadings | legacy/scoreboard_controller.py:184-188 | For any title where a name has several text fields, get_state reads the last of them while get_text_from_title finds the first |
| LegacyScoreboard.FnEach | legacy/scoreboard_controller.py:259-313 | One call per field, in field order |
| LegacyScoreboard.VisibilityCalls | legacy/scoreboard_controller.py:475-538 | Time and number visibility come first, then the backgrounds when configured |
| LegacyScoreboard.SlotView | legacy/scoreboard_controller.py:210-225 | A slot's raw time is its field's text ("00:00" without one); its seconds are the parse and it is active iff seconds > 0 |
| LegacyScoreboard.Views | legacy/scoreboard_controller.py:210-225 | One view per slot, in order |
| LegacyScoreboard.ClearCalls | legacy/scoreboard_controller.py:540-587 | Clearing sends nothing iff the slot lacks a time or number field |
| LegacyScoreboard.ClearAt | legacy/scoreboard_controller.py:540-587 | A clear that sends calls records the slot as 0 seconds, and one that sends none changes nothing |
| LegacyScoreboard.AutoClear | legacy/scoreboard_controller.py:227-244 | Slots and seconds keep their order; nothing fires while the match clock reads 0 |
| LegacyScoreboard.Tick | legacy/scoreboard_controller.py:163-254 | The clock is read with "00:00" as default; a zero clock forces the running flag off with no calls; otherwise the flag is kept |
| LegacyScoreboard.SbNode | legacy/scoreboard_controller.py:173-182 | The scoreboard node is the first input with the resolved number; it fails with the resolver's error, or when no input has that number |
| LegacyScoreboard.PositiveFields | legacy/scoreboard_controller.py:352-388 | Exactly the fields whose countdown reads more than 0 seconds |
| LegacyScoreboard.AdjustTimes | legacy/scoreboard_controller.py:352-388 | Delta 0 does nothing; otherwise an AdjustCountdown of delta for every positive clock or penalty field |
| LegacyScoreboard.SetMatchTime | legacy/scoreboard_controller.py:398-417 | A non-MM:SS time raises ValueError; otherwise the clock stops and is set and written to the normalised text, and the flag turns off |
| LegacyScoreboard.ChangeScore | legacy/scoreboard_controller.py:422-431 | The score becomes max(0, current + delta), written as text |
| LegacyScoreboard.HomeGoal | legacy/scoreboard_controller.py:433-435 | A home goal fails iff the scoreboard is missing, and otherwise writes the new count to the home score field |
| LegacyScoreboard.AwayGoal | legacy/scoreboard_controller.py:436-437 | The same for the away score field |
| LegacyScoreboard.SetPenalty | legacy/scoreboard_controller.py:475-538 | Missing fields or a bad time raise ValueError. Otherwise: stop, set, text, number, visibility on, and a start only if the clock runs and time > 0. The slot records the seconds |
| LegacyScoreboard.ClearPenalty | legacy/scoreboard_controller.py:540-587 | An unconfigured slot is a no-op; otherwise the clear of ClearAt |
| LegacyScoreboard.AnyShows | legacy/scoreboard_controller.py:138-158 | Some overlay entry shows the number on the channel |
| LegacyScoreboard.IsScoreboardOverlayActive | legacy/scoreboard_controller.py:138-158 | True iff some overlay on the configured channel holds the scoreboard's number; false without overlays |
| LegacyScoreboard.SetPeriod | legacy/scoreboard_controller.py:393-396 | The period text is written as given to the period field |
| LegacyScoreboard.SetScoreboardOverlay | legacy/scoreboard_controller.py:622-632 | The overlay call fails iff the scoreboard is missing, and carries only its number |
| LegacyScoreboard.OverlaySwitch | legacy/scoreboard_controller.py:622-632 | The call is OverlayInput<channel>In or Out, the same as overlay_on/off, and showing differs from hiding |
| LegacyScoreboard.EmptyNetSpec | legacy/scoreboard_controller.py:634-656 | An unconfigured side is a no-op even without a scoreboard; otherwise the text, then the background if configured, on the same fields for show and hide |
| EngineProps.TickViews | legacy/scoreboard_controller.py:207-244 | The penalty views list every slot in order with the seconds read from vMix, and active iff > 0 |
| EngineProps.MissingClockReadsZero | legacy/scoreboard_controller.py:190-199 | Without a clock field the clock reads "00:00", stops and sends nothing |
| EngineProps.AutoClearSpec | legacy/scoreboard_controller.py:227-244 | With distinct slots, the clears sent are exactly those going from > 0 to 0 while the clock is not 0; every slot's last seconds become its reading |
| EngineProps.TickClears | legacy/scoreboard_controller.py:163-254 | The same, for a whole get_state |
| EngineProps.SecondTickIsQuiet | legacy/scoreboard_controller.py:227-244 | Repeating get_state on the same readings clears nothing |
| EngineProps.NothingFiresOnSeen | legacy/scoreboard_controller.py:227-244 | No clear fires on readings already recorded |
| EngineProps.ToggleTwiceResumes | legacy/scoreboard_controller.py:259-313 | Toggling a running clock twice pauses and restarts the clock and the same live penalties |
| EngineProps.ToggleAfterSpec | legacy/scoreboard_controller.py:259-313 | The clock runs afterwards iff it was stopped and reads more than 0. Nothing is sent iff it was stopped at or without time. Otherwise the first call targets the clock field, then one call per live penalty view (seconds > 0 and a time field) in slot order: a pause iff the clock was running, a start otherwise |
| EngineProps.LiveIndicesSpec | legacy/scoreboard_controller.py:301-311 | The positions toggle_clock acts on are exactly the penalty views with seconds > 0 and a time field, each once, in slot order |
| EngineProps.ToggleRefusesWithoutTime | legacy/scoreboard_controller.py:259-313 | A stopped clock without time left stays stopped |
| EngineProps.ToggleWhileRunningIsPause | legacy/scoreboard_controller.py:259-286 | Toggling a clock its tick leaves running does exactly what a pause does |
| EngineProps.PauseThenToggleRuns | legacy/scoreboard_controller.py:592-617 | After a pause the clock is stopped, and a toggle on the same reading runs it again |
| EngineProps.PauseThenToggleResumes | legacy/scoreboard_controller.py:592-617 | A toggle after pause starts the same fields the pause paused |
| EngineProps.StopAtZeroAtZero | legacy/scoreboard_controller.py:315-347 | At 00:00 the clock stops, every penalty pauses, and no time text is written |
| EngineProps.StopAtZeroOnlyAtZero | legacy/scoreboard_controller.py:315-347 | Off 00:00, stopping at zero is only the get_state |
| EngineProps.AdjustTargets | legacy/scoreboard_controller.py:352-388 | Every adjustment targets a configured positive field with Value = delta, and every configured positive field is adjusted |
| EngineProps.SetMatchTimeNormalises | legacy/scoreboard_controller.py:398-417 | The written text parses to the requested time, and setting the normalised text is the same operation |
| EngineProps.SetPenaltyRecordsWritten | legacy/scoreboard_controller.py:475-538 | The recorded seconds are those written, and the number is written as given |
| EngineProps.SetPenaltyStartsIff | legacy/scoreboard_controller.py:528-536 | The last call starts the countdown iff the clock runs and the time is positive |
| EngineProps.ClearAfterSet | legacy/scoreboard_controller.py:540-587 | Clearing after a set records 0 and writes "00:00", a text that reads back as zero |
| EngineProps.ClearHidesWhatSetShowed | legacy/scoreboard_controller.py:540-587 | A slot set and then cleared is hidden on exactly the layers the set showed |
| EngineProps.ChangeScoreIsIncrementScore | legacy/vmix_client.py:204-218 | The controller's score change is the client's increment_score |
| EngineProps.GoalAddsOne | legacy/scoreboard_controller.py:433-437 | A goal on a valid score n gives n + 1 |
| JsonDict.Lookup | config/vmix_config.py:178-185 | d.get(k) finds a value iff k is a key, and that value is stored under k |
| JsonDict.Put | config/vmix_config.py:178-185 | An assignment to an existing key keeps the key order; a new key is appended |
| JsonDict.PutLookup | config/vmix_config.py:178-185 | After d[k] = v, k holds v and every other key holds what it did |
| JsonDict.PutKeys | config/vmix_config.py:178-185 | Assignment adds exactly its key |
| JsonDict.PutDistinct | config/vmix_config.py:178-185 | Assignment never duplicates a key |
| JsonDict.Contains | core/config_loader.py:140-147 | `in` on a dict tests its keys and raises TypeError on scalars |
| JsonDict.GetItem | core/config_loader.py:144 | x[k] succeeds iff x is a dict holding k |
| JsonDict.SetItem | core/config_loader.py:148 | x[k] = v succeeds iff x is a dict |
| JsonDict.GetOr | controllers/goal_controller.py:139-154 | x.get(k, d) needs a dict and gives the value or the default |
| ConfigMerge.LoadMergeSpec | config/vmix_config.py:178-185 | The result has the default and loaded keys; a loaded key holds its value, merged recursively into a dict default; other keys keep their default |
| ConfigMerge.LoadMergeEmpty | config/vmix_config.py:178-185 | Merging nothing in gives back the defaults |
| ConfigMerge.LoadMergeSelf | config/vmix_config.py:178-185 | Merging a well-formed dict into itself gives it back |
| ConfigMerge.MergesAgree | config/config_loader.py:102-121 | The two merges give the same dict, in the same key order |
| ConfigMerge.FillMergeKeys | config/config_loader.py:102-121 | _merge fills in every default key and drops no user key |
| ConfigRepair.FillKeysSpec | core/config_loader.py:145-148 | Filling keeps every existing entry and makes every default key present |
| ConfigRepair.RepairSectionSpec | core/config_loader.py:139-148 | A repaired section is present and repaired against its default; other sections are untouched |
| ConfigRepair.RepairSectionsSpec | core/config_loader.py:139-148 | After the loop, every default section is present and repaired; other keys are untouched |
| ConfigRepair.RepairShape | core/config_loader.py:127-150 | A repaired config is a dict with a complete mapping, and its other top-level keys are unchanged |
| ConfigRepair.RepairKeepsMapping | core/config_loader.py:139-148 | Existing section entries and extra mapping keys survive the repair |
| ConfigRepair.RepairAddsDefaultMapping | core/config_loader.py:135-136 | A config without a mapping gets the default mapping |
| ConfigRepair.RepairAddsDefaults | core/config_loader.py:133-136 | The same, with the built-in defaults |
| ConfigRepair.RepairKeepsComplete | core/config_loader.py:127-150 | A config with a complete mapping is returned unchanged |
| ConfigRepair.RepairIdempotent | core/config_loader.py:127-150 | Repairing twice is repairing once |
| ConfigRepair.RepairTwice | core/config_loader.py:127-150 | The same, with the built-in defaults |
| ConfigRepair.RepairRejectsNonDictMapping | core/config_loader.py:144-148 | A mapping that is not a dict raises TypeError |
| ConfigRepair.RepairRejectsNonDict | core/config_loader.py:135 | A config that is not a dict raises |
| AppClient.GetPath | controllers/goal_controller.py:47-58 | A chained subscript succeeds iff every level is a dict with the key; otherwise KeyError or TypeError |
| GoalControl.GetField | controllers/goal_controller.py:47-58 | A goal field is cfg["goal"][side][field], and ValueError when any level is missing |
| GoalControl.GoalHomeCounts | controllers/goal_controller.py:79-87 | The home count rises by one even when the write fails, and a successful write carries the new count |
| GoalControl.GoalAwayCounts | controllers/goal_controller.py:89-97 | The same for away |
| GoalControl.FailedWriteKeepsGoal | controllers/goal_controller.py:60-73 | A refused write raises RuntimeError after the count has risen |
| GoalControl.MissingFieldRaises | controllers/goal_controller.py:47-58 | A missing score field raises ValueError before any call |
| GoalControl.AfterGoalGating | controllers/goal_controller.py:139-154 | The after-goal overlay is shown iff asked and after_goal_enabled is truthy, and on the configured input |
| GoalControl.ToggleFlipsSide | controllers/goal_controller.py:101-135 | A toggle flips exactly that side and writes its new on/off state |
| GoalControl.ToggleRejectsOtherSide | controllers/goal_controller.py:101-116 | Any other side raises ValueError and changes nothing |
| GoalControl.ToggleTwice | controllers/goal_controller.py:101-116 | Toggling twice restores the flags |
| ShotsControl.New | controllers/shots_controller.py:22-32 | Construction needs the scoreboard input and both shot fields; the counts start at 0 |
| ShotsControl.IncHomeSpec | controllers/shots_controller.py:44-46 | The home shots rise by n, and the new count is written to the home field |
| ShotsControl.IncAwaySpec | controllers/shots_controller.py:48-50 | The same for away |
| ShotsControl.IncrementsCompose | controllers/shots_controller.py:44-50 | Increments add up, and home and away increments commute |
| ShotsControl.ResetSpec | controllers/shots_controller.py:52-56 | Reset zeroes both counts and writes 0 to both fields |
| EmptyGoalControl.New | controllers/empty_goal_controller.py:11-25 | Construction needs mapping.empty_goal.input and .fields; both flags start off |
| EmptyGoalControl.Render | controllers/empty_goal_controller.py:49-73 | Rendering fails iff fields is not a dict |
| EmptyGoalControl.RenderSpec | controllers/empty_goal_controller.py:49-73 | The text field gets "EMPTY GOAL" iff the flag is on and the background gets "1" iff it is on; unset names get no call |
| EmptyGoalControl.ToggleSpec | controllers/empty_goal_controller.py:30-36 | A toggle flips its side, and twice is the identity |
| EmptyGoalControl.SetIdempotent | controllers/empty_goal_controller.py:38-44 | set_home/set_away store the truthiness, and setting twice is setting once |
| EmptyGoalControl.NonDictFieldsRaise | controllers/empty_goal_controller.py:49-73 | A non-dict fields raises AttributeError after the flag has flipped |
| EmptyGoalControl.DefaultMappingLacksFields | core/config_loader.py:66-70 | A config that got the default mapping from the repair makes this constructor fail |
| ScoreCache.Store | controllers/scoreboard_controller.py:47-89 | Storing changes exactly one counter |
| ScoreCache.New | controllers/scoreboard_controller.py:28-41 | The counters start at 0 with period 1, on the loaded config when the given one is falsy; construction succeeds iff that config has a dict under "inputs" and a value at mapping.scoreboard; a missing or unsubscriptable level raises KeyError or TypeError, a non-dict "inputs" AttributeError; the input is inputs.get("scoreboard", "") |
| ScoreCache.Write | controllers/scoreboard_controller.py:111-124 | Nothing is sent iff the input or field name is falsy; otherwise one text or image write |
| ScoreCache.SetStores | controllers/scoreboard_controller.py:47-89 | A setter caches its value even when the mapping raises, and a write carries the value as text |
| ScoreCache.AddIncrements | controllers/scoreboard_controller.py:55-81 | Adding raises exactly that counter by one |
| ScoreCache.SetIdempotent | controllers/scoreboard_controller.py:47-89 | Setting twice is setting once |
| ScoreCache.SetRefWrites | controllers/scoreboard_controller.py:95-105 | Names and logos are not cached; a missing mapping key raises; otherwise one text or image write |
| ScoreCache.EmptyNameWritesNothing | controllers/scoreboard_controller.py:111-115 | Without an input nothing is sent |
| GuiLogic.FiringsSpec | legacy/vmix_gui_tk.py:338-359 | The 00:00 handling fires at exactly the first zero reading of each zero run |
| GuiLogic.ZeroStretchQuiet | legacy/vmix_gui_tk.py:338-359 | Once latched, a stretch of zeros fires nothing |
| GuiLogic.StartGuard | legacy/vmix_gui_tk.py:405-448 | The button acts iff running or the clock shows time left; it toggles first, then shows the overlay iff it started a hidden scoreboard |
| GuiLogic.NextPeriod | legacy/vmix_gui_tk.py:1043-1067 | Periods stay in 1..4 |
| GuiLogic.AdvanceSaturates | legacy/vmix_gui_tk.py:1043-1067 | Advancing n periods stops at OT |
| GuiLogic.NewPeriodSpec | legacy/vmix_gui_tk.py:1043-1067 | A yes moves to the next period and sets its label and the period or OT time when connected; a no does nothing |
| GuiLogic.DecodePeriod | legacy/vmix_gui_tk.py:372-380 | A decoded period is in 1..4 |
| GuiLogic.DecodePeriodSpec | legacy/vmix_gui_tk.py:372-380 | The text of 1, 2 or 3 selects that period; a period text is ignored iff it is not "OT" in any case and int() does not read it as 1..4 |
| GuiLogic.DecodeLabel | legacy/vmix_gui_tk.py:372-380 | Reading back a written period label gives the period |
| GuiLogic.DecodeOvertime | legacy/vmix_gui_tk.py:372-380 | A text upper-cases to "OT" iff it is one of OT, Ot, oT, ot; period 4 is read from exactly those texts and from the texts int() reads as 4 |
| GuiLogic.PenaltyButtonsFollowClock | legacy/vmix_gui_tk.py:394-404 | The penalty buttons follow the clock button: while they are disabled the clock button always toggles first and never shows the overlay; while they are enabled it acts iff the clock reads a positive time |
| GuiLogic.PenaltyDialogSpec | legacy/vmix_gui_tk.py:622-640 | OK sets a penalty iff the time is blank or MM:SS, and blank means 02:00 |
| GuiLogic.SaveSettings | legacy/vmix_gui_tk.py:963-1011 | Settings save iff both times are MM:SS |
| GuiLogic.SaveSettingsSpec | legacy/vmix_gui_tk.py:963-1011 | Saved times are valid MM:SS; the goal channel is the typed integer, or 2 when the text is not one |
| Roster.ScanSpec | gui/penalty_select_dialog.py:44-55 | Starting from empty dicts, numbers[k] is the stripped text of the last field whose name ends in "_number.Text" and loses that suffix to k, and k is absent when there is none; likewise names[k] for the "_name.Text" fields the elif sees |
| Roster.ScanNumberLast | gui/penalty_select_dialog.py:47-52 | From any dicts, numbers[k] ends as the stripped text of the last number field filed under k |
| Roster.ScanNameLast | gui/penalty_select_dialog.py:47-55 | From any dicts, names[k] ends as the stripped text of the last name field filed under k |
| Roster.ScanUntouched | gui/penalty_select_dialog.py:47-55 | A key no field is filed under keeps its value in each dict |
| Roster.Pair | gui/penalty_select_dialog.py:57-61 | Only players with a number are listed, and never more entries than keys |
| Roster.PairSpec | gui/penalty_select_dialog.py:57-61 | Every numbered entry is paired with its name, or "" |
| Roster.PairOnlyNumbered | gui/penalty_select_dialog.py:57-61 | Every entry is (numbers[k], names.get(k, "")) for a key k with a non-empty number: nothing else is listed |
| Roster.PairAppend | gui/penalty_select_dialog.py:57-61 | Entries follow the dict order of their keys: pairing a + b gives the pairs of a, then those of b |
| Roster.SortByNumber | gui/penalty_select_dialog.py:64 | The roster is sorted by number as a permutation |
| Roster.Insert | gui/penalty_select_dialog.py:64 | Inserting into a roster sorted by number keeps it sorted and one longer |
| Roster.InsertPermutes | gui/penalty_select_dialog.py:64 | Insertion adds exactly the new entry: the result is a permutation of the roster plus it |
| Roster.SortedPairwise | gui/penalty_select_dialog.py:64 | A roster sorted neighbour by neighbour is ordered for every pair of positions |
| Roster.SortStable | gui/penalty_select_dialog.py:64 | Players with equal numbers keep their relative order |
| Roster.FirstTitled | gui/penalty_select_dialog.py:41-42 | The roster input is the first input with the title |
| Roster.LoadPlayersSpec | gui/penalty_select_dialog.py:34-67 | The roster is the numbered pairs of that input, sorted stably by number |
| Roster.NoInputNoRoster | gui/penalty_select_dialog.py:37-38 | No XML or no such input gives an empty roster |
| Roster.OkButtonsSpec | gui/penalty_select_dialog.py:113-135 | Both OK buttons close iff a duration is chosen; time-only gives empty number and name; with a player, that player's number and name |

## Left out

- HTTP, sockets, XML parsing and timeouts are left out. The status is a
  value, and every vMix call is a value in the returned list. vMix's
  countdown behaviour itself (ticking, how it applies the calls) is not
  modelled.
- Each operation reads one status snapshot, though the code fetches the XML
  again for each client call. vMix does not change between those fetches in
  the model.
- Threads and timers are left out: `trigger_goal_graphic` with its worker
  thread, the GUI's periodic poll and `after(...)` scheduling. The 00:00
  latch is modelled on a sequence of readings instead.
- Loading and saving JSON files is left out. The loaded configuration is a
  parameter (`loaded` in `ScoreCache.New`).
- Tk widgets, message boxes and log output are left out. Failures that the
  newer controllers catch and only print do not appear, so `ShotsControl`,
  `EmptyGoalControl.Render` writes and `ScoreCache` writes have no error
  channel for the client.
- `overlay_show`, `title_set_text`, `set_image` and the multiview overlay
  calls are opaque calls. Where the code lets their failure propagate
  (`GoalControl` and `PenaltyAlert.AutoRefreshMv`), a `refuses` set of calls
  that fail stands in for it. `core/vmix_client.py` defines neither
  `set_multiview_overlay_on` nor `set_multiview_overlay_off`, so with that
  client every overlay call fails (an `AttributeError`); the model lets the
  caller choose which calls fail. `core/vmix_client.py` is otherwise not
  part of this model.
- The two older controllers `controllers/clock_controller.py` and
  `controllers/team_controller.py`, and the GUI panels under `gui/` other
  than the penalty picker, are not part of this model.
- Exception message texts are kept only where a caller can see them (the
  RuntimeError naming the scoreboard input). The others are placeholders.
- Python's `lower`, `upper` and `isdigit` are modelled on ASCII only.
  `strip` removes Python's full `isspace` set. `int()` is modelled without
  underscores or non-ASCII digits.
- TimeParsers.ParseGraphics: `float()` is modelled only for the forms
  `[sign][digits][.digits]` with at least one digit, so ".5" and "5." are
  read. Exponents, `inf`, `nan` and underscores are not modelled.
- TimeParsers.ParseGraphics: the text is read as an exact decimal, while
  Python's `float()` first rounds it to the nearest IEEE double. So
  `int(float(t))` can differ from the model. "0.99999999999999999" is 1 in
  Python and 0 here. Integers above 2^53, such as "9007199254740993", lose
  their low bits in Python and stay exact here. A numeral beyond the double
  range becomes `inf`, and `int(inf)` raises `OverflowError`, which the
  source does not catch; the model returns a value. Floating point is not
  modelled.
- TimeParsers.ParseClock: the same exact-decimal reading on its `float()`
  branch (text with a "."), with the same rounding and overflow
  differences.
- TimeParsers.ParseClockDecimal: states the exact reading `w`. Python agrees
  only while the rounded double has the same integer part, that is below
  2^53 and when the fraction does not round up to the next integer.
- TimeParsers.ParseGraphicsDecimal: states the exact reading `±w`, with the
  same limits as ParseClockDecimal.
- TimeParsers.DecimalReading: the clock and graphics readings `int(w)` hold
  with the same limits as ParseClockDecimal.
- The schema repair of `core/config_loader.py` inserts the default dicts
  themselves, so later edits could alias them. The model copies values, and
  aliasing is not modelled.
- Roster.SortByNumber: the model sorts by insertion, which gives the same
  stable order as Python's `sort`. `roster.sort(key=int)` computes every
  key before it moves anything, so a non-numeric number raises `ValueError`
  and leaves the roster untouched. `InputRoster` models that as an error
  returned before the sort; the sort itself only sees numeric rosters.
- EngineProps.AutoClearSpec: the exact list of clears is proved for
  configurations whose slot names stay distinct after upper-casing
  (`CleanSlots`). With slots such as "h1" and "H1" both configured, the
  code's bookkeeping is still modelled, but the closed form is not proved.
- EngineProps.TickClears: proved under `CleanSlots` as well, for the same
  reason as AutoClearSpec.
- EngineProps.SecondTickIsQuiet: proved under `CleanSlots` as well, for the
  same reason as AutoClearSpec.
- EngineProps.ToggleTwiceResumes: proved under `CleanSlots` as well, for the
  same reason as AutoClearSpec.
- EngineProps.PauseThenToggleRuns: proved under `CleanSlots` as well, for the
  same reason as AutoClearSpec.
- EngineProps.PauseThenToggleResumes: proved under `CleanSlots` as well, for
  the same reason as AutoClearSpec.
- Roster.Scan: every status text is taken to have a `name` attribute.
  `_load_players` calls `endswith` on `t.get("name")` with no fallback, so a
  nameless text would raise `AttributeError`, which the model does not
  represent.
- LegacyScoreboard.Toggle, LegacyScoreboard.StopAtZero and
  LegacyScoreboard.Pause are get_state followed by their decision. Their
  behaviour is stated by EngineProps.ToggleAfterSpec, StopAtZeroAtZero,
  StopAtZeroOnlyAtZero, ToggleWhileRunningIsPause and the pause lemmas.
- The legacy configuration (`SbConfig`) is assumed to carry every key the
  engine indexes, `clock_field` among them, with text values, and an
  integer `overlay_channel`. The defaults merge of `config/vmix_config.py`
  (lines 178-187) supplies those keys. The `KeyError` of a missing
  `clock_field`, a `None` value and the `ValueError` of a non-numeric
  `overlay_channel` are not modelled.
- PenaltyAlert.ReadPenalty: takes the slot's field names as a parameter
  instead of looking up `self.mapping[side][slot]`, so the `KeyError` of an
  unmapped side or slot is not modelled.
