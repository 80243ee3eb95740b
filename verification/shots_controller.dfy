/** `ShotsController` of `controllers/shots_controller.py`: two shot
    counters, each written to its scoreboard field after every change. A
    failing write is caught and printed, so neither the counters nor the
    calls depend on what the client does; the model has no error channel
    for them. */
module ShotsControl {
  import opened Wrappers
  import opened PyText
  import opened JsonDict
  import opened AppClient

  datatype Shots = Shots(input: Json, mapHome: Json, mapAway: Json, home: int, away: int)

  /** The constructor: `cfg["inputs"]["scoreboard"]` and
      `cfg["mapping"]["scoreboard"]["shots_home" / "shots_away"]`, both
      counters 0. */
  function New(cfg: Json): (r: Result<Shots>)
    ensures r.Ok? <==> (Path(cfg, ["inputs", "scoreboard"]).Some?
                     && Path(cfg, ["mapping", "scoreboard", "shots_home"]).Some?
                     && Path(cfg, ["mapping", "scoreboard", "shots_away"]).Some?)
    ensures r.Ok? ==> (r.value.home == 0 && r.value.away == 0
                    && r.value.input == Path(cfg, ["inputs", "scoreboard"]).value
                    && r.value.mapHome == Path(cfg, ["mapping", "scoreboard", "shots_home"]).value
                    && r.value.mapAway == Path(cfg, ["mapping", "scoreboard", "shots_away"]).value)
  {
    var input :- GetPath(cfg, ["inputs", "scoreboard"]);
    var h :- GetPath(cfg, ["mapping", "scoreboard", "shots_home"]);
    var a :- GetPath(cfg, ["mapping", "scoreboard", "shots_away"]);
    Ok(Shots(input, h, a, 0, 0))
  }

  function GetHome(c: Shots): int { c.home }

  function GetAway(c: Shots): int { c.away }

  function SyncHome(c: Shots): ClientCall {
    SetText(c.input, c.mapHome, IntToString(c.home))
  }

  function SyncAway(c: Shots): ClientCall {
    SetText(c.input, c.mapAway, IntToString(c.away))
  }

  /** `inc_home(n)`. */
  function IncHome(c: Shots, n: int): (Shots, seq<ClientCall>) {
    var c' := c.(home := c.home + n);
    (c', [SyncHome(c')])
  }

  /** `inc_away(n)`. */
  function IncAway(c: Shots, n: int): (Shots, seq<ClientCall>) {
    var c' := c.(away := c.away + n);
    (c', [SyncAway(c')])
  }

  /** `reset()`: both counters to 0, home written before away. */
  function Reset(c: Shots): (Shots, seq<ClientCall>) {
    var c' := c.(home := 0, away := 0);
    (c', [SyncHome(c'), SyncAway(c')])
  }

  /** The value a sync writes reads back as the counter. */
  predicate Shows(call: ClientCall, field: Json, n: int) {
    call.SetText? && call.field == field && ParseInt(call.value) == Some(n)
  }

  /** `inc_home(n)` adds `n` to home only, and the home field then shows
      the new count. */
  lemma IncHomeSpec(c: Shots, n: int)
    ensures var (c', calls) := IncHome(c, n);
      && GetHome(c') == GetHome(c) + n && GetAway(c') == GetAway(c)
      && c'.input == c.input && c'.mapHome == c.mapHome && c'.mapAway == c.mapAway
      && |calls| == 1 && Shows(calls[0], c.mapHome, c.home + n) && calls[0].input == c.input
  {
    ParseIntToString(c.home + n);
  }

  /** `inc_away(n)` adds `n` to away only. */
  lemma IncAwaySpec(c: Shots, n: int)
    ensures var (c', calls) := IncAway(c, n);
      && GetAway(c') == GetAway(c) + n && GetHome(c') == GetHome(c)
      && c'.input == c.input && c'.mapHome == c.mapHome && c'.mapAway == c.mapAway
      && |calls| == 1 && Shows(calls[0], c.mapAway, c.away + n) && calls[0].input == c.input
  {
    ParseIntToString(c.away + n);
  }

  /** Two increments add up, and home and away increments commute. */
  lemma IncrementsCompose(c: Shots, a: int, b: int)
    ensures GetHome(IncHome(IncHome(c, a).0, b).0) == GetHome(c) + a + b
    ensures IncAway(IncHome(c, a).0, b).0 == IncHome(IncAway(c, b).0, a).0
  {
  }

  /** `reset()` zeroes both counters and both fields show 0. */
  lemma ResetSpec(c: Shots)
    ensures var (c', calls) := Reset(c);
      && GetHome(c') == 0 && GetAway(c') == 0
      && |calls| == 2 && Shows(calls[0], c.mapHome, 0) && Shows(calls[1], c.mapAway, 0)
  {
    ParseIntToString(0);
  }
}
