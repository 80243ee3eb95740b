/** The typed view of the vMix status (`core/vmix_api_types.py`): inputs
    with their text and image fields, and the lookups on them. */
module ApiTypes {
  import opened Wrappers
  import opened PyText

  datatype TextField = TextField(name: string, value: string)
  datatype ImageField = ImageField(name: string, source: string)

  /** `VMixInput`; `kind` is the dataclass field `type`. */
  datatype VInput = VInput(
    number: int, key: string, title: string, shortTitle: string, kind: string,
    textFields: seq<TextField>, imageFields: seq<ImageField>)

  /** `VMixState`. */
  datatype VState = VState(version: string, edition: string, preset: string, inputs: seq<VInput>)

  /** What `find_input` is given: an `int` or some text. */
  datatype Lookup = Number(n: int) | Name(s: string)

  /** `VMixInput.get_text`: the value of the first text field whose name is
      exactly `name`, else `""`. */
  function GetText(inp: VInput, name: string): (r: string)
    ensures (forall i :: 0 <= i < |inp.textFields| ==> inp.textFields[i].name != name) ==> r == ""
    ensures forall i :: (0 <= i < |inp.textFields| && inp.textFields[i].name == name
      && (forall j :: 0 <= j < i ==> inp.textFields[j].name != name)) ==> r == inp.textFields[i].value
  {
    TextIn(inp.textFields, name)
  }

  function TextIn(fields: seq<TextField>, name: string): (r: string)
    ensures (forall i :: 0 <= i < |fields| ==> fields[i].name != name) ==> r == ""
    ensures forall i :: (0 <= i < |fields| && fields[i].name == name
      && (forall j :: 0 <= j < i ==> fields[j].name != name)) ==> r == fields[i].value
  {
    if |fields| == 0 then ""
    else if fields[0].name == name then fields[0].value
    else
      assert forall i :: 0 < i < |fields| ==> fields[i] == fields[1..][i - 1];
      TextIn(fields[1..], name)
  }

  /** `VMixInput.get_image`: the source of the first image field whose name
      is exactly `name`, else `""`. */
  function GetImage(inp: VInput, name: string): (r: string)
    ensures (forall i :: 0 <= i < |inp.imageFields| ==> inp.imageFields[i].name != name) ==> r == ""
    ensures forall i :: (0 <= i < |inp.imageFields| && inp.imageFields[i].name == name
      && (forall j :: 0 <= j < i ==> inp.imageFields[j].name != name)) ==> r == inp.imageFields[i].source
  {
    ImageIn(inp.imageFields, name)
  }

  function ImageIn(fields: seq<ImageField>, name: string): (r: string)
    ensures (forall i :: 0 <= i < |fields| ==> fields[i].name != name) ==> r == ""
    ensures forall i :: (0 <= i < |fields| && fields[i].name == name
      && (forall j :: 0 <= j < i ==> fields[j].name != name)) ==> r == fields[i].source
  {
    if |fields| == 0 then ""
    else if fields[0].name == name then fields[0].source
    else
      assert forall i :: 0 < i < |fields| ==> fields[i] == fields[1..][i - 1];
      ImageIn(fields[1..], name)
  }

  /** `VMixState.find_input_by_number`: the first input with that number. */
  function FindInputByNumber(st: VState, n: int): (r: Option<VInput>)
    ensures r.None? <==> forall i :: 0 <= i < |st.inputs| ==> st.inputs[i].number != n
    ensures r.Some? ==> exists i :: (0 <= i < |st.inputs| && st.inputs[i] == r.value
      && r.value.number == n && (forall j :: 0 <= j < i ==> st.inputs[j].number != n))
  {
    ByNumberIn(st.inputs, n)
  }

  function ByNumberIn(inputs: seq<VInput>, n: int): (r: Option<VInput>)
    ensures r.None? <==> forall i :: 0 <= i < |inputs| ==> inputs[i].number != n
    ensures r.Some? ==> exists i :: (0 <= i < |inputs| && inputs[i] == r.value
      && r.value.number == n && (forall j :: 0 <= j < i ==> inputs[j].number != n))
  {
    if |inputs| == 0 then None
    else if inputs[0].number == n then Some(inputs[0])
    else
      var r := ByNumberIn(inputs[1..], n);
      assert r.Some? ==> exists i :: (0 <= i < |inputs| && inputs[i] == r.value
        && (forall j :: 0 <= j < i ==> inputs[j].number != n)) by {
        if r.Some? {
          var k :| 0 <= k < |inputs[1..]| && inputs[1..][k] == r.value
            && (forall j :: 0 <= j < k ==> inputs[1..][j].number != n);
          assert inputs[k + 1] == r.value;
          assert forall j :: 0 <= j < k + 1 ==> inputs[j].number != n by {
            forall j | 0 < j < k + 1 ensures inputs[j].number != n {
              assert inputs[j] == inputs[1..][j - 1];
            }
          }
        }
      }
      r
  }

  /** Title or short title equal to `name` once lower-cased. */
  predicate TitleMatches(inp: VInput, name: string) {
    Lower(inp.title) == name || Lower(inp.shortTitle) == name
  }

  function ByTitleIn(inputs: seq<VInput>, name: string): (r: Option<VInput>)
    ensures r.None? <==> forall i :: 0 <= i < |inputs| ==> !TitleMatches(inputs[i], name)
    ensures r.Some? ==> exists i :: (0 <= i < |inputs| && inputs[i] == r.value
      && TitleMatches(r.value, name) && (forall j :: 0 <= j < i ==> !TitleMatches(inputs[j], name)))
  {
    if |inputs| == 0 then None
    else if TitleMatches(inputs[0], name) then Some(inputs[0])
    else
      var r := ByTitleIn(inputs[1..], name);
      assert r.Some? ==> exists i :: (0 <= i < |inputs| && inputs[i] == r.value
        && (forall j :: 0 <= j < i ==> !TitleMatches(inputs[j], name))) by {
        if r.Some? {
          var k :| 0 <= k < |inputs[1..]| && inputs[1..][k] == r.value
            && (forall j :: 0 <= j < k ==> !TitleMatches(inputs[1..][j], name));
          assert inputs[k + 1] == r.value;
          assert forall j :: 0 <= j < k + 1 ==> !TitleMatches(inputs[j], name) by {
            forall j | 0 < j < k + 1 ensures !TitleMatches(inputs[j], name) {
              assert inputs[j] == inputs[1..][j - 1];
            }
          }
        }
      }
      r
  }

  /** `VMixState.find_input`: an `int` goes to the number lookup; text is
      stripped and lower-cased and compared with each input's lower-cased
      title and short title. Text is never compared with input numbers. */
  function FindInput(st: VState, q: Lookup): (r: Option<VInput>)
    ensures q.Number? ==> r == FindInputByNumber(st, q.n)
    ensures q.Name? ==> r == ByTitleIn(st.inputs, Lower(Strip(q.s)))
  {
    match q
    case Number(n) => FindInputByNumber(st, n)
    case Name(s) => ByTitleIn(st.inputs, Lower(Strip(s)))
  }

  /** A numeric text such as `"3"` finds input 3 only through a title or
      short title that reads `3`: when no title matches, the lookup fails
      even if an input has that number. */
  lemma NumericTextIsNotANumber(st: VState, s: string, i: int)
    requires 0 <= i < |st.inputs|
    requires forall j :: 0 <= j < |st.inputs| ==> !TitleMatches(st.inputs[j], Lower(Strip(s)))
    ensures FindInput(st, Name(s)) == None
    ensures FindInput(st, Number(st.inputs[i].number)).Some?
  {
  }
}
