/** The calls the newer controllers make on their vMix client, and what an
    operation of theirs leaves behind. Input keys and field names are
    whatever JSON value the configuration holds. `core/vmix_client.py` has
    `set_text`; `overlay_show`, `title_set_text` and `set_image` are not
    part of this model and are treated as opaque calls that may raise. */
module AppClient {
  import opened Wrappers
  import opened JsonDict

  datatype ClientCall =
    | SetText(input: Json, field: Json, value: string)
    | SetImage(input: Json, field: Json, path: string)
    | OverlayShow(input: Json)
    | TitleSetText(input: Json, field: Json, value: string)

  /** The state a controller operation leaves (updated even when the
      operation then raises), the client calls it made in order, and the
      exception it raised, if any. */
  datatype Outcome<S> = Outcome(state: S, calls: seq<ClientCall>, error: Option<Error>)

  /** `cfg[k1][k2]...` walked through dicts only: `None` as soon as a
      level is not a dict or lacks the key. */
  function Path(x: Json, ks: seq<string>): Option<Json>
    decreases |ks|
  {
    if ks == [] then Some(x)
    else if x.JObj? && ks[0] in Keys(x.fields) then Path(Lookup(x.fields, ks[0]).value, ks[1..])
    else None
  }

  /** Chained `x[k1][k2]`, raising at the first level that fails. */
  function GetPath(x: Json, ks: seq<string>): (r: Result<Json>)
    ensures r.Ok? <==> Path(x, ks).Some?
    ensures r.Ok? ==> r.value == Path(x, ks).value
    ensures r.Err? ==> r.error.KeyError? || r.error.TypeError?
    decreases |ks|
  {
    if ks == [] then Ok(x)
    else
      var y :- GetItem(x, ks[0]);
      GetPath(y, ks[1..])
  }
}
