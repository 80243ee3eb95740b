/** The legacy vMix HTTP client (`legacy/vmix_client.py`) over one status
    snapshot. The status XML is modelled as data: the list of inputs, each
    with its number, names and text fields, and the overlay table. Every
    request the client would send is returned as a `Call` instead. */
module LegacyClient {
  import opened Wrappers
  import opened PyText
  import opened VmixCall

  /** A `<text name="...">value</text>` child of an input. A missing `name`
      attribute or missing text reads as `""`, as the client's `or ""` in
      `get_text_from_title` does. The penalty picker's scan has no such
      fallback for the name, so there every text is taken to be named. */
  datatype TextNode = TextNode(name: string, text: string)

  /** An `<input>` element. Missing title, shortTitle and key attributes read
      as `""`; vMix always writes the `number` attribute as a decimal number. */
  datatype InputNode = InputNode(
    number: nat, title: string, shortTitle: string, key: string, texts: seq<TextNode>)

  /** An `<overlay number="N">INPUT</overlay>` entry; a missing attribute or
      text reads as `""`. */
  datatype OverlayNode = OverlayNode(number: string, text: string)

  /** One status snapshot: the inputs, and the `<overlays>` element if the
      XML has one. */
  datatype Status = Status(inputs: seq<InputNode>, overlays: Option<seq<OverlayNode>>)

  /** What `find_input_number` is given: an `int` or some text. */
  datatype InputRef = ByNumber(n: int) | ByName(s: string)

  /** The `number` attribute as the XML carries it. */
  function NumberText(inp: InputNode): (r: string)
    ensures IsDigitString(r)
  {
    NatToString(inp.number)
  }

  /** Title, short title or key equal to the lower-cased query once stripped
      and lower-cased. */
  predicate NameMatches(inp: InputNode, sLower: string) {
    || Lower(Strip(inp.title)) == sLower
    || Lower(Strip(inp.shortTitle)) == sLower
    || Lower(Strip(inp.key)) == sLower
  }

  /** The position of the first input from `i` on whose names match: the
      client's scan over the inputs in document order. */
  function FirstNameMatch(inputs: seq<InputNode>, sLower: string, i: nat): (r: Option<nat>)
    requires i <= |inputs|
    ensures r.Some? ==> i <= r.value < |inputs| && NameMatches(inputs[r.value], sLower)
    ensures r.Some? ==> forall j :: i <= j < r.value ==> !NameMatches(inputs[j], sLower)
    ensures r.None? ==> forall j :: i <= j < |inputs| ==> !NameMatches(inputs[j], sLower)
    decreases |inputs| - i
  {
    if i == |inputs| then None
    else if NameMatches(inputs[i], sLower) then Some(i)
    else
      var r := FirstNameMatch(inputs, sLower, i + 1);
      assert r.None? ==> forall j :: i <= j < |inputs| ==> j == i || !NameMatches(inputs[j], sLower);
      r
  }

  /** `find_input_number`: an `int` is returned as its text, an all-digit
      stripped text is returned without a lookup, and anything else is
      looked up case-insensitively by title, short title or key. */
  function FindInputNumber(st: Status, ref: InputRef): (r: Option<string>)
    ensures ref.ByNumber? ==> r == Some(IntToString(ref.n))
    ensures ref.ByName? && IsDigitString(Strip(ref.s)) ==> r == Some(Strip(ref.s))
    ensures ref.ByName? && !IsDigitString(Strip(ref.s)) ==>
      (r.Some? <==> exists i :: 0 <= i < |st.inputs| && NameMatches(st.inputs[i], Lower(Strip(ref.s))))
    ensures ref.ByName? && r.Some? ==> IsDigitString(r.value)
  {
    match ref
    case ByNumber(n) => Some(IntToString(n))
    case ByName(s0) =>
      var s := Strip(s0);
      if IsDigitString(s) then Some(s)
      else match FirstNameMatch(st.inputs, Lower(s), 0)
        case Some(i) => Some(NumberText(st.inputs[i]))
        case None => None
  }

  /** A number the client itself produced resolves to itself without a
      lookup, so passing `sb_num` back to the client is a no-op resolution. */
  lemma ResolvedNumberIsStable(st: Status, num: string)
    requires IsDigitString(num)
    ensures FindInputNumber(st, ByName(num)) == Some(num)
  {
    DigitsNoSpace(num);
  }

  /** A name lookup returns the number of the first matching input. */
  lemma FindByNameIsFirstMatch(st: Status, s: string, i: nat)
    requires !IsDigitString(Strip(s))
    requires i < |st.inputs| && NameMatches(st.inputs[i], Lower(Strip(s)))
    requires forall j :: 0 <= j < i ==> !NameMatches(st.inputs[j], Lower(Strip(s)))
    ensures FindInputNumber(st, ByName(s)) == Some(NumberText(st.inputs[i]))
  {
    var r := FirstNameMatch(st.inputs, Lower(Strip(s)), 0);
    assert r.Some?;
    assert r.value == i by {
      if r.value < i {
      } else if r.value > i {
      }
    }
  }

  /** The position of the first input from `i` on with the given number
      text. */
  function FirstWithNumber(inputs: seq<InputNode>, num: string, i: nat): (r: Option<nat>)
    requires i <= |inputs|
    ensures r.Some? ==> i <= r.value < |inputs| && NumberText(inputs[r.value]) == num
    ensures r.Some? ==> forall j :: i <= j < r.value ==> NumberText(inputs[j]) != num
    ensures r.None? ==> forall j :: i <= j < |inputs| ==> NumberText(inputs[j]) != num
    decreases |inputs| - i
  {
    if i == |inputs| then None
    else if NumberText(inputs[i]) == num then Some(i)
    else FirstWithNumber(inputs, num, i + 1)
  }

  /** `_find_input_node`. */
  function FindInputNode(st: Status, ref: InputRef): (r: Option<InputNode>)
    ensures r.Some? ==> r.value in st.inputs
    ensures FindInputNumber(st, ref).None? ==> r.None?
    ensures r.Some? ==> NumberText(r.value) == FindInputNumber(st, ref).value
    ensures r.Some? ==>
      exists i :: 0 <= i < |st.inputs| && st.inputs[i] == r.value
        && forall j :: 0 <= j < i ==> NumberText(st.inputs[j]) != FindInputNumber(st, ref).value
    ensures r.None? && FindInputNumber(st, ref).Some? ==>
      forall j :: 0 <= j < |st.inputs| ==> NumberText(st.inputs[j]) != FindInputNumber(st, ref).value
  {
    match FindInputNumber(st, ref)
    case None => None
    case Some(num) =>
      match FirstWithNumber(st.inputs, num, 0)
      case Some(i) => Some(st.inputs[i])
      case None => None
  }

  /** The position of the first text field from `i` on with exactly the
      given name. */
  function FirstField(texts: seq<TextNode>, field: string, i: nat): (r: Option<nat>)
    requires i <= |texts|
    ensures r.Some? ==> i <= r.value < |texts| && texts[r.value].name == field
    ensures r.Some? ==> forall j :: i <= j < r.value ==> texts[j].name != field
    ensures r.None? ==> forall j :: i <= j < |texts| ==> texts[j].name != field
    decreases |texts| - i
  {
    if i == |texts| then None
    else if texts[i].name == field then Some(i)
    else FirstField(texts, field, i + 1)
  }

  /** `get_text_from_title`: the stripped text of the first field with the
      given name, or `""` when the input or the field is missing. */
  function GetTextFromTitle(st: Status, ref: InputRef, field: string): (r: string)
    ensures FindInputNode(st, ref).None? ==> r == ""
    ensures FindInputNode(st, ref).Some? ==>
      var texts := FindInputNode(st, ref).value.texts;
      && ((forall j :: 0 <= j < |texts| ==> texts[j].name != field) ==> r == "")
      && (forall i :: (0 <= i < |texts| && texts[i].name == field
            && (forall j :: 0 <= j < i ==> texts[j].name != field)) ==> r == Strip(texts[i].text))
  {
    match FindInputNode(st, ref)
    case None => ""
    case Some(node) =>
      FirstFieldUnique(node.texts, field);
      match FirstField(node.texts, field, 0)
      case Some(i) => Strip(node.texts[i].text)
      case None => ""
  }

  /** The first field with a name is the one the scan finds. */
  lemma FirstFieldUnique(texts: seq<TextNode>, field: string)
    ensures forall i :: (0 <= i < |texts| && texts[i].name == field
      && (forall j :: 0 <= j < i ==> texts[j].name != field)) ==> FirstField(texts, field, 0) == Some(i)
  {
    forall i | 0 <= i < |texts| && texts[i].name == field && (forall j :: 0 <= j < i ==> texts[j].name != field)
      ensures FirstField(texts, field, 0) == Some(i)
    {
      var r := FirstField(texts, field, 0);
    }
  }

  /** The error every setter raises when the input cannot be resolved. */
  function NotFound(ref: InputRef): Error {
    ValueError("Kunde inte hitta input: " + match ref case ByNumber(n) => IntToString(n) case ByName(s) => s)
  }

  /** The shape `set_text` and `set_countdown` share: the vMix function
      `fn` with the resolved number, the field and the value, or
      `ValueError` before any request when the input cannot be resolved. */
  function SetValue(st: Status, ref: InputRef, fn: string, field: string, value: string): (r: Result<Call>)
    ensures r.Err? <==> FindInputNumber(st, ref).None?
    ensures r.Err? ==> r.error == NotFound(ref)
    ensures r.Ok? ==> r.value == FnV(fn, FindInputNumber(st, ref).value, field, value)
  {
    match FindInputNumber(st, ref)
    case None => Err(NotFound(ref))
    case Some(num) => Ok(FnV(fn, num, field, value))
  }

  /** `set_text`. */
  function SetText(st: Status, ref: InputRef, field: string, value: string): Result<Call> {
    SetValue(st, ref, "SetText", field, value)
  }

  /** `set_countdown`. */
  function SetCountdown(st: Status, ref: InputRef, field: string, value: string): Result<Call> {
    SetValue(st, ref, "SetCountdown", field, value)
  }

  /** `overlay_on` / `overlay_off` on a channel: `OverlayInput<N>In` or
      `OverlayInput<N>Out` with only the `Input` parameter. */
  function Overlay(st: Status, ref: InputRef, channel: int, on: bool): (r: Result<Call>)
    ensures r.Err? <==> FindInputNumber(st, ref).None?
    ensures r.Ok? ==> r.value.params == [("Input", FindInputNumber(st, ref).value)]
    ensures r.Ok? ==> StartsWith(r.value.fn, "OverlayInput")
  {
    match FindInputNumber(st, ref)
    case None => Err(NotFound(ref))
    case Some(num) =>
      Ok(Call("OverlayInput" + IntToString(channel) + (if on then "In" else "Out"), [("Input", num)]))
  }

  /** Python `int(text)` with the fallback to 0 that `increment_score` uses. */
  function IntOrZero(text: string): int {
    match ParseInt(text)
    case Some(v) => v
    case None => 0
  }

  /** `increment_score`: the current text read as an integer (0 when it is
      not one), moved by `delta` and floored at 0, written back and
      returned. */
  function IncrementScore(st: Status, ref: InputRef, field: string, delta: int): (r: Result<(Call, int)>)
    ensures r.Err? <==> FindInputNumber(st, ref).None?
    ensures r.Ok? ==> r.value.1 >= 0
    ensures r.Ok? ==> r.value.1 >= IntOrZero(GetTextFromTitle(st, ref, field)) + delta
    ensures r.Ok? && IntOrZero(GetTextFromTitle(st, ref, field)) + delta >= 0 ==>
      r.value.1 == IntOrZero(GetTextFromTitle(st, ref, field)) + delta
    ensures r.Ok? && IntOrZero(GetTextFromTitle(st, ref, field)) + delta <= 0 ==> r.value.1 == 0
    ensures r.Ok? ==>
      r.value.0 == FnV("SetText", FindInputNumber(st, ref).value, field, IntToString(r.value.1))
  {
    var current := IntOrZero(GetTextFromTitle(st, ref, field));
    var newValue := if current + delta > 0 then current + delta else 0;
    match SetText(st, ref, field, IntToString(newValue))
    case Err(e) => Err(e)
    case Ok(c) => Ok((c, newValue))
  }

  /** The value `increment_score` writes reads back as the value it returns. */
  lemma IncrementScoreWritesResult(st: Status, ref: InputRef, field: string, delta: int)
    requires IncrementScore(st, ref, field, delta).Ok?
    ensures var (c, v) := IncrementScore(st, ref, field, delta).value;
      |c.params| == 3 && c.params[2].0 == "Value" && ParseInt(c.params[2].1) == Some(v)
  {
    var v := IncrementScore(st, ref, field, delta).value.1;
    ParseIntToString(v);
  }

  /** The controllers' `_scoreboard_input_number`: the configured input
      resolved through `find_input_number`, or `RuntimeError`. */
  function ScoreboardNumber(st: Status, input: string): (r: Result<string>)
    ensures r.Ok? <==> FindInputNumber(st, ByName(input)).Some?
    ensures r.Ok? ==> r.value == FindInputNumber(st, ByName(input)).value && IsDigitString(r.value)
    ensures r.Err? ==> r.error == RuntimeError("Kunde inte hitta scoreboard-input: " + input)
  {
    match FindInputNumber(st, ByName(input))
    case None => Err(RuntimeError("Kunde inte hitta scoreboard-input: " + input))
    case Some(num) => Ok(num)
  }

  /** Handing a resolved number back to `set_text` or `set_countdown`
      cannot fail and addresses the same input. */
  lemma SettersOnResolved(st: Status, num: string, field: string, value: string)
    requires IsDigitString(num)
    ensures SetText(st, ByName(num), field, value) == Ok(FnV("SetText", num, field, value))
    ensures SetCountdown(st, ByName(num), field, value) == Ok(FnV("SetCountdown", num, field, value))
  {
    ResolvedNumberIsStable(st, num);
  }

  /** Reading through a resolved number reads the input it names: the
      first input whose number is that text. */
  lemma TextThroughResolved(st: Status, input: string, field: string)
    requires FindInputNumber(st, ByName(input)).Some?
    ensures GetTextFromTitle(st, ByName(FindInputNumber(st, ByName(input)).value), field)
      == GetTextFromTitle(st, ByName(input), field)
  {
    ResolvedNumberIsStable(st, FindInputNumber(st, ByName(input)).value);
  }

  /** The URL `call_function` requests. */
  function CallUrl(host: string, port: int, c: Call): (url: string)
    ensures StartsWith(url, "http://" + host + ":" + IntToString(port) + "/api/")
  {
    BuildUrl(host, port, "/api/", QueryOf(c))
  }
}
