/** `ScoreboardController` of `controllers/scoreboard_controller.py`: a
    cache of score, shots and period, each setter storing its value and
    then writing it to the scoreboard field `cfg["mapping"]["scoreboard"]`
    names. A write is skipped when the input or the field name is empty,
    and a client failure is caught and printed, so the client's behaviour
    does not show in the model. */
module ScoreCache {
  import opened Wrappers
  import opened PyText
  import opened JsonDict
  import opened AppClient

  datatype Cache = Cache(
    input: Json, mapping: Json,
    homeScore: int, awayScore: int, shotsHome: int, shotsAway: int, period: int)

  /** The cached values and the mapping key each is written under. */
  datatype Counter = HomeScore | AwayScore | ShotsHome | ShotsAway | Period {
    function Key(): string {
      match this
      case HomeScore => "home_score"
      case AwayScore => "away_score"
      case ShotsHome => "shots_home"
      case ShotsAway => "shots_away"
      case Period => "period"
    }
  }

  function Get(c: Cache, w: Counter): int {
    match w
    case HomeScore => c.homeScore
    case AwayScore => c.awayScore
    case ShotsHome => c.shotsHome
    case ShotsAway => c.shotsAway
    case Period => c.period
  }

  function Store(c: Cache, w: Counter, v: int): (r: Cache)
    ensures Get(r, w) == v
    ensures forall u :: u != w ==> Get(r, u) == Get(c, u)
    ensures r.input == c.input && r.mapping == c.mapping
  {
    match w
    case HomeScore => c.(homeScore := v)
    case AwayScore => c.(awayScore := v)
    case ShotsHome => c.(shotsHome := v)
    case ShotsAway => c.(shotsAway := v)
    case Period => c.(period := v)
  }

  /** The constructor: an empty `cfg` is replaced by what `load_config()`
      returns, passed in as `loaded`; the input is
      `cfg["inputs"].get("scoreboard", "")`. Score and shots start at 0,
      the period at 1. */
  function New(cfg: Json, loaded: Json): (r: Result<Cache>)
    ensures r.Ok? ==> (Get(r.value, HomeScore) == 0 && Get(r.value, AwayScore) == 0
                    && Get(r.value, ShotsHome) == 0 && Get(r.value, ShotsAway) == 0
                    && Get(r.value, Period) == 1)
    ensures r.Ok? ==> Path(if Truthy(cfg) then cfg else loaded, ["mapping", "scoreboard"]) == Some(r.value.mapping)
    ensures var c := if Truthy(cfg) then cfg else loaded;
      r.Ok? <==> (&& GetItem(c, "inputs").Ok? && GetItem(c, "inputs").value.JObj?
                  && Path(c, ["mapping", "scoreboard"]).Some?)
    ensures var c := if Truthy(cfg) then cfg else loaded;
      GetItem(c, "inputs").Err? ==> r == Err(GetItem(c, "inputs").error)
    ensures var c := if Truthy(cfg) then cfg else loaded;
      GetItem(c, "inputs").Ok? && !GetItem(c, "inputs").value.JObj? ==> r.Err? && r.error.AttributeError?
    ensures r.Err? ==> r.error.KeyError? || r.error.TypeError? || r.error.AttributeError?
    ensures var c := if Truthy(cfg) then cfg else loaded;
      r.Ok? ==> r.value.input == Lookup(GetItem(c, "inputs").value.fields, "scoreboard").GetOr(JStr(""))
  {
    var c := if Truthy(cfg) then cfg else loaded;
    var inputs :- GetItem(c, "inputs");
    var input :- GetOr(inputs, "scoreboard", JStr(""));
    var mapping :- GetPath(c, ["mapping", "scoreboard"]);
    Ok(Cache(input, mapping, 0, 0, 0, 0, 1))
  }

  /** `_write`: nothing when the input or the field name is falsy. */
  function Write(c: Cache, field: Json, value: string, isImage: bool): (r: seq<ClientCall>)
    ensures r == [] <==> !Truthy(c.input) || !Truthy(field)
    ensures |r| <= 1
    ensures r != [] ==> r[0] == (if isImage then SetImage(c.input, field, value) else SetText(c.input, field, value))
  {
    if !Truthy(c.input) || !Truthy(field) then []
    else if isImage then [SetImage(c.input, field, value)]
    else [SetText(c.input, field, value)]
  }

  /** `set_home_score`, `set_away_score`, `set_shots_home`,
      `set_shots_away`, `set_period`: the value is cached first, then the
      mapping entry is read (raising when missing) and written. */
  function Set(c: Cache, w: Counter, v: int): Outcome<Cache> {
    var c' := Store(c, w, v);
    match GetItem(c.mapping, w.Key())
    case Err(e) => Outcome(c', [], Some(e))
    case Ok(field) => Outcome(c', Write(c', field, IntToString(v), false), None)
  }

  /** `add_goal_*` and `add_shot_*`: one more, through the setter. */
  function Add(c: Cache, w: Counter): Outcome<Cache>
    requires w != Period
  {
    Set(c, w, Get(c, w) + 1)
  }

  /** `set_home_name` / `set_away_name` (text) and `set_home_logo` /
      `set_away_logo` (image): written, never cached. */
  function SetRef(c: Cache, key: string, value: string, isImage: bool): Outcome<Cache> {
    match GetItem(c.mapping, key)
    case Err(e) => Outcome(c, [], Some(e))
    case Ok(field) => Outcome(c, Write(c, field, value, isImage), None)
  }

  // ---------------------------------------------------------------
  // Properties
  // ---------------------------------------------------------------

  /** A setter caches exactly its value and changes no other, even when
      the mapping lookup then raises; a write it makes reads back as the
      value. */
  lemma SetStores(c: Cache, w: Counter, v: int)
    ensures var o := Set(c, w, v);
      && Get(o.state, w) == v
      && (forall u :: u != w ==> Get(o.state, u) == Get(c, u))
      && (o.error.Some? <==> !(c.mapping.JObj? && w.Key() in Keys(c.mapping.fields)))
      && |o.calls| <= 1
      && (o.calls != [] ==> (o.calls[0].SetText? && o.calls[0].field == Lookup(c.mapping.fields, w.Key()).value
                            && ParseInt(o.calls[0].value) == Some(v)))
  {
    ParseIntToString(v);
  }

  /** Adding a goal or a shot raises that counter by exactly one. */
  lemma AddIncrements(c: Cache, w: Counter)
    requires w != Period
    ensures Get(Add(c, w).state, w) == Get(c, w) + 1
    ensures forall u :: u != w ==> Get(Add(c, w).state, u) == Get(c, u)
  {
    SetStores(c, w, Get(c, w) + 1);
  }

  /** Setting twice to the same value is setting once. */
  lemma SetIdempotent(c: Cache, w: Counter, v: int)
    ensures Set(Set(c, w, v).state, w, v) == Set(c, w, v)
  {
    var c' := Store(c, w, v);
    assert Store(c', w, v) == c' by {
      match w
      case HomeScore =>
      case AwayScore =>
      case ShotsHome =>
      case ShotsAway =>
      case Period =>
    }
  }

  /** A team name or logo is never cached: the counters are as before, a
      missing mapping entry raises, and a present one is written as text or
      as an image, as asked. */
  lemma SetRefWrites(c: Cache, key: string, value: string, isImage: bool)
    ensures var o := SetRef(c, key, value, isImage);
      && o.state == c
      && (o.error.Some? <==> !(c.mapping.JObj? && key in Keys(c.mapping.fields)))
      && (o.error.Some? ==> o.calls == [])
      && (o.error.None? && Truthy(c.input) && Truthy(Lookup(c.mapping.fields, key).value) ==>
            o.calls == [if isImage then SetImage(c.input, Lookup(c.mapping.fields, key).value, value)
                        else SetText(c.input, Lookup(c.mapping.fields, key).value, value)])
  {
  }

  /** With an empty input or field name nothing is written, whatever the
      call. */
  lemma EmptyNameWritesNothing(c: Cache, w: Counter, v: int)
    requires !Truthy(c.input)
    ensures Set(c, w, v).calls == []
  {
  }
}
