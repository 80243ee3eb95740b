/** The roster of `PenaltySelectDialog` in `gui/penalty_select_dialog.py`:
    the lineup input's `<key>_number.Text` and `<key>_name.Text` fields
    paired by key into `(number, name)` entries, sorted by the number's
    integer value; and the rules of the dialog's OK buttons. */
module Roster {
  import opened Wrappers
  import opened PyText
  import opened VmixCall
  import opened LegacyClient

  const NumberSuffix := "_number.Text"
  const NameSuffix := "_name.Text"

  type Entry = (string, string)

  // ---------------------------------------------------------------
  // Reading the lineup fields
  // ---------------------------------------------------------------

  /** The scan over the input's text fields, filling the `numbers` and
      `names` dicts: the key is the field name with every occurrence of the
      suffix removed (Python's `replace`), the value the stripped text, and
      a later field with the same key overwrites the earlier value in
      place. */
  function Scan(texts: seq<TextNode>, numbers: Query, names: Query): (Query, Query)
    decreases |texts|
  {
    if texts == [] then (numbers, names)
    else Scan(texts[1..], FileNumber(texts[0], numbers), FileName(texts[0], names))
  }

  /** The `if` branch of one step: a `_number.Text` field goes to `numbers`. */
  function FileNumber(t: TextNode, numbers: Query): Query {
    if EndsWith(t.name, NumberSuffix)
    then Put(numbers, ReplaceAll(t.name, NumberSuffix, ""), Strip(t.text))
    else numbers
  }

  /** The `elif` branch of one step: a `_name.Text` field that is not a
      number field goes to `names`. */
  function FileName(t: TextNode, names: Query): Query {
    if !EndsWith(t.name, NumberSuffix) && EndsWith(t.name, NameSuffix)
    then Put(names, ReplaceAll(t.name, NameSuffix, ""), Strip(t.text))
    else names
  }

  /** A field the scan files under `numbers` with key `k`. */
  predicate NumberFieldOf(t: TextNode, k: string) {
    EndsWith(t.name, NumberSuffix) && ReplaceAll(t.name, NumberSuffix, "") == k
  }

  /** A field the scan files under `names` with key `k`: the `elif` only
      sees names that do not end in the number suffix. */
  predicate NameFieldOf(t: TextNode, k: string) {
    !EndsWith(t.name, NumberSuffix) && EndsWith(t.name, NameSuffix)
    && ReplaceAll(t.name, NameSuffix, "") == k
  }

  /** One step sets key `k` of a dict exactly when the field is filed
      under `k`, and leaves it alone otherwise. */
  lemma FileGet(t: TextNode, numbers: Query, names: Query, k: string)
    ensures Get(FileNumber(t, numbers), k) ==
      if NumberFieldOf(t, k) then Some(Strip(t.text)) else Get(numbers, k)
    ensures Get(FileName(t, names), k) ==
      if NameFieldOf(t, k) then Some(Strip(t.text)) else Get(names, k)
  {
    PutGet(numbers, ReplaceAll(t.name, NumberSuffix, ""), Strip(t.text));
    PutGet(names, ReplaceAll(t.name, NameSuffix, ""), Strip(t.text));
  }

  /** Keys that no field of the scan touches keep their values. */
  lemma {:induction false} ScanUntouched(texts: seq<TextNode>, numbers: Query, names: Query, k: string)
    ensures (forall j :: 0 <= j < |texts| ==> !NumberFieldOf(texts[j], k))
      ==> Get(Scan(texts, numbers, names).0, k) == Get(numbers, k)
    ensures (forall j :: 0 <= j < |texts| ==> !NameFieldOf(texts[j], k))
      ==> Get(Scan(texts, numbers, names).1, k) == Get(names, k)
    decreases |texts|
  {
    if texts != [] {
      assert forall j :: 0 <= j < |texts[1..]| ==> texts[1..][j] == texts[j + 1];
      FileGet(texts[0], numbers, names, k);
      ScanUntouched(texts[1..], FileNumber(texts[0], numbers), FileName(texts[0], names), k);
    }
  }

  /** `numbers[k]` ends as the stripped text of the last field filed
      under `k`: a later field overwrites an earlier one. */
  lemma {:induction false} ScanNumberLast(texts: seq<TextNode>, numbers: Query, names: Query, k: string, i: nat)
    requires i < |texts| && NumberFieldOf(texts[i], k)
    requires forall j :: i < j < |texts| ==> !NumberFieldOf(texts[j], k)
    ensures Get(Scan(texts, numbers, names).0, k) == Some(Strip(texts[i].text))
    decreases |texts|
  {
    var n', m' := FileNumber(texts[0], numbers), FileName(texts[0], names);
    assert forall j :: 0 <= j < |texts[1..]| ==> texts[1..][j] == texts[j + 1];
    if i == 0 {
      FileGet(texts[0], numbers, names, k);
      ScanUntouched(texts[1..], n', m', k);
    } else {
      ScanNumberLast(texts[1..], n', m', k, i - 1);
    }
  }

  /** `names[k]` ends as the stripped text of the last field filed under
      `k` among the names. */
  lemma {:induction false} ScanNameLast(texts: seq<TextNode>, numbers: Query, names: Query, k: string, i: nat)
    requires i < |texts| && NameFieldOf(texts[i], k)
    requires forall j :: i < j < |texts| ==> !NameFieldOf(texts[j], k)
    ensures Get(Scan(texts, numbers, names).1, k) == Some(Strip(texts[i].text))
    decreases |texts|
  {
    var n', m' := FileNumber(texts[0], numbers), FileName(texts[0], names);
    assert forall j :: 0 <= j < |texts[1..]| ==> texts[1..][j] == texts[j + 1];
    if i == 0 {
      FileGet(texts[0], numbers, names, k);
      ScanUntouched(texts[1..], n', m', k);
    } else {
      ScanNameLast(texts[1..], n', m', k, i - 1);
    }
  }

  /** The dicts the dialog builds from empty: each key reads the stripped
      text of the last field filed under it, and is absent when no field
      is. */
  lemma ScanSpec(texts: seq<TextNode>, k: string)
    ensures forall i :: (0 <= i < |texts| && NumberFieldOf(texts[i], k)
                         && (forall j :: i < j < |texts| ==> !NumberFieldOf(texts[j], k))
                         ==> Get(Scan(texts, [], []).0, k) == Some(Strip(texts[i].text)))
    ensures (forall j :: 0 <= j < |texts| ==> !NumberFieldOf(texts[j], k))
      ==> Get(Scan(texts, [], []).0, k) == None
    ensures forall i :: (0 <= i < |texts| && NameFieldOf(texts[i], k)
                         && (forall j :: i < j < |texts| ==> !NameFieldOf(texts[j], k))
                         ==> Get(Scan(texts, [], []).1, k) == Some(Strip(texts[i].text)))
    ensures (forall j :: 0 <= j < |texts| ==> !NameFieldOf(texts[j], k))
      ==> Get(Scan(texts, [], []).1, k) == None
  {
    forall i | 0 <= i < |texts| && NumberFieldOf(texts[i], k)
      && (forall j :: i < j < |texts| ==> !NumberFieldOf(texts[j], k))
      ensures Get(Scan(texts, [], []).0, k) == Some(Strip(texts[i].text))
    {
      ScanNumberLast(texts, [], [], k, i);
    }
    forall i | 0 <= i < |texts| && NameFieldOf(texts[i], k)
      && (forall j :: i < j < |texts| ==> !NameFieldOf(texts[j], k))
      ensures Get(Scan(texts, [], []).1, k) == Some(Strip(texts[i].text))
    {
      ScanNameLast(texts, [], [], k, i);
    }
    ScanUntouched(texts, [], [], k);
  }

  /** The loop over `numbers.items()`: every non-empty number with the
      name of the same key, `""` when there is none. */
  function Pair(numbers: Query, names: Query): (r: seq<Entry>)
    ensures forall i :: 0 <= i < |r| ==> r[i].0 != ""
    ensures |r| <= |numbers|
  {
    if numbers == [] then []
    else
      var (k, nr) := numbers[0];
      var rest := Pair(numbers[1..], names);
      if nr != "" then [(nr, Get(names, k).GetOr(""))] + rest else rest
  }

  // ---------------------------------------------------------------
  // Sorting by number
  // ---------------------------------------------------------------

  predicate Numeric(xs: seq<Entry>) {
    forall i :: 0 <= i < |xs| ==> ParseInt(xs[i].0).Some?
  }

  function Number(e: Entry): int
    requires ParseInt(e.0).Some?
  {
    ParseInt(e.0).value
  }

  /** Each entry's number is at most the next one's. */
  predicate SortedByNumber(xs: seq<Entry>)
    requires Numeric(xs)
  {
    forall i :: 0 < i < |xs| ==> Number(xs[i - 1]) <= Number(xs[i])
  }

  /** Sorted neighbours order every pair. */
  lemma {:induction false} SortedPairwise(xs: seq<Entry>)
    requires Numeric(xs) && SortedByNumber(xs)
    ensures forall i, j :: 0 <= i < j < |xs| ==> Number(xs[i]) <= Number(xs[j])
    decreases |xs|
  {
    if |xs| > 1 {
      var t := xs[1..];
      assert forall i :: 0 <= i < |t| ==> t[i] == xs[i + 1];
      SortedPairwise(t);
      forall i, j | 0 <= i < j < |xs| ensures Number(xs[i]) <= Number(xs[j]) {
        if i > 0 {
          assert Number(t[i - 1]) <= Number(t[j - 1]);
        } else if j > 1 {
          assert Number(t[0]) <= Number(t[j - 1]);
        }
      }
    }
  }

  /** Insertion after every entry whose number is not larger. */
  function Insert(e: Entry, s: seq<Entry>): (r: seq<Entry>)
    requires ParseInt(e.0).Some? && Numeric(s) && SortedByNumber(s)
    ensures Numeric(r) && SortedByNumber(r)
    ensures |r| == |s| + 1
    ensures r != [] && (r[0] == e || (s != [] && r[0] == s[0]))
    decreases |s|
  {
    if s == [] then [e]
    else if Number(e) < Number(s[0]) then [e] + s
    else
      var t := Insert(e, s[1..]);
      assert s == [s[0]] + s[1..];
      [s[0]] + t
  }

  /** Insertion adds exactly the element: the result is a permutation of
      the list with `e` added. */
  lemma {:induction false} InsertPermutes(e: Entry, s: seq<Entry>)
    requires ParseInt(e.0).Some? && Numeric(s) && SortedByNumber(s)
    ensures multiset(Insert(e, s)) == multiset(s) + multiset{e}
    decreases |s|
  {
    if s != [] && Number(e) >= Number(s[0]) {
      InsertPermutes(e, s[1..]);
      assert s == [s[0]] + s[1..];
      assert Insert(e, s) == [s[0]] + Insert(e, s[1..]);
    }
  }

  /** `roster.sort(key=lambda x: int(x[0]))`, taking the entries in order
      as Python's stable sort keeps them. */
  function SortByNumber(xs: seq<Entry>): (r: seq<Entry>)
    requires Numeric(xs)
    ensures Numeric(r) && SortedByNumber(r)
    ensures multiset(r) == multiset(xs)
    decreases |xs|
  {
    if xs == [] then []
    else
      var n := |xs| - 1;
      assert xs == xs[..n] + [xs[n]];
      InsertPermutes(xs[n], SortByNumber(xs[..n]));
      Insert(xs[n], SortByNumber(xs[..n]))
  }

  /** The entries whose number is `k`, in order. */
  function WithNumber(xs: seq<Entry>, k: int): seq<Entry>
    requires Numeric(xs)
  {
    if xs == [] then []
    else (if Number(xs[0]) == k then [xs[0]] else []) + WithNumber(xs[1..], k)
  }

  lemma {:induction false} WithNumberAppend(xs: seq<Entry>, e: Entry, k: int)
    requires Numeric(xs) && ParseInt(e.0).Some?
    ensures Numeric(xs + [e])
    ensures WithNumber(xs + [e], k) == WithNumber(xs, k) + (if Number(e) == k then [e] else [])
    decreases |xs|
  {
    var y := if Number(e) == k then [e] else [];
    if xs == [] {
      assert xs + [e] == [e];
      assert WithNumber([e], k) == y + WithNumber([], k);
    } else {
      var h := if Number(xs[0]) == k then [xs[0]] else [];
      assert (xs + [e])[0] == xs[0];
      assert (xs + [e])[1..] == xs[1..] + [e];
      WithNumberAppend(xs[1..], e, k);
      assert WithNumber(xs + [e], k) == h + (WithNumber(xs[1..], k) + y);
      AppendAssoc(h, WithNumber(xs[1..], k), y);
    }
  }

  /** Inserting puts the entry after every entry with the same number. */
  lemma {:induction false} InsertStable(e: Entry, s: seq<Entry>, k: int)
    requires ParseInt(e.0).Some? && Numeric(s) && SortedByNumber(s)
    ensures WithNumber(Insert(e, s), k) == WithNumber(s, k) + (if Number(e) == k then [e] else [])
    decreases |s|
  {
    if s == [] {
    } else if Number(e) < Number(s[0]) {
      InsertFrontStable(e, s, k);
    } else {
      InsertStable(e, s[1..], k);
      InsertBehindStable(e, s, k);
    }
  }

  /** An entry inserted behind the head keeps the head's place in front
      of whatever the insertion into the tail gives. */
  lemma InsertBehindStable(e: Entry, s: seq<Entry>, k: int)
    requires ParseInt(e.0).Some? && Numeric(s) && SortedByNumber(s)
    requires s != [] && Number(e) >= Number(s[0])
    requires WithNumber(Insert(e, s[1..]), k) == WithNumber(s[1..], k) + (if Number(e) == k then [e] else [])
    ensures WithNumber(Insert(e, s), k) == WithNumber(s, k) + (if Number(e) == k then [e] else [])
  {
    var r := Insert(e, s);
    var t := Insert(e, s[1..]);
    var h := if Number(s[0]) == k then [s[0]] else [];
    assert r == [s[0]] + t;
    assert r[1..] == t;
    var x := if Number(e) == k then [e] else [];
    assert WithNumber(r, k) == h + WithNumber(t, k);
    assert WithNumber(s, k) == h + WithNumber(s[1..], k);
    AppendAssoc(h, WithNumber(s[1..], k), x);
  }

  lemma AppendAssoc(a: seq<Entry>, b: seq<Entry>, c: seq<Entry>)
    ensures a + (b + c) == (a + b) + c
  {
  }

  /** An entry inserted in front comes before nothing with its number. */
  lemma InsertFrontStable(e: Entry, s: seq<Entry>, k: int)
    requires ParseInt(e.0).Some? && Numeric(s) && SortedByNumber(s)
    requires s != [] && Number(e) < Number(s[0])
    ensures WithNumber(Insert(e, s), k) == WithNumber(s, k) + (if Number(e) == k then [e] else [])
  {
    var r := Insert(e, s);
    assert r == [e] + s;
    assert r[1..] == s;
    if Number(e) == k {
      NoneBelow(s, k);
    }
  }

  /** A sorted list whose first number exceeds `k` has no entry with `k`. */
  lemma {:induction false} NoneBelow(s: seq<Entry>, k: int)
    requires Numeric(s) && SortedByNumber(s) && (s != [] ==> Number(s[0]) > k)
    ensures WithNumber(s, k) == []
    decreases |s|
  {
    if s != [] {
      if |s| > 1 {
        assert Number(s[0]) <= Number(s[1]);
      }
      NoneBelow(s[1..], k);
    }
  }

  /** The sort is stable: entries with equal numbers keep their order. */
  lemma {:induction false} SortStable(xs: seq<Entry>, k: int)
    requires Numeric(xs)
    ensures WithNumber(SortByNumber(xs), k) == WithNumber(xs, k)
    decreases |xs|
  {
    if xs != [] {
      var n := |xs| - 1;
      assert xs == xs[..n] + [xs[n]];
      SortStable(xs[..n], k);
      InsertStable(xs[n], SortByNumber(xs[..n]), k);
      WithNumberAppend(xs[..n], xs[n], k);
    }
  }

  // ---------------------------------------------------------------
  // `_load_players`
  // ---------------------------------------------------------------

  /** The first input whose title is exactly `title`. */
  function FirstTitled(inputs: seq<InputNode>, title: string): (r: Option<nat>)
    ensures r.Some? ==> r.value < |inputs| && inputs[r.value].title == title
    ensures r.Some? ==> forall j :: 0 <= j < r.value ==> inputs[j].title != title
    ensures r.None? ==> forall j :: 0 <= j < |inputs| ==> inputs[j].title != title
  {
    if inputs == [] then None
    else if inputs[0].title == title then Some(0)
    else match FirstTitled(inputs[1..], title)
      case Some(i) => Some(i + 1)
      case None => None
  }

  /** The roster of one input; a number that `int()` rejects makes the sort
      raise `ValueError`. */
  function InputRoster(inp: InputNode): Result<seq<Entry>> {
    var (numbers, names) := Scan(inp.texts, [], []);
    var roster := Pair(numbers, names);
    if Numeric(roster) then Ok(SortByNumber(roster))
    else Err(ValueError("invalid literal for int() with base 10"))
  }

  /** `_load_players`: no status XML or no input with the title gives
      `[]`. */
  function LoadPlayers(xml: Option<seq<InputNode>>, title: string): Result<seq<Entry>> {
    match xml
    case None => Ok([])
    case Some(inputs) =>
      match FirstTitled(inputs, title)
      case None => Ok([])
      case Some(i) => InputRoster(inputs[i])
  }

  /** The loaded roster is the paired entries of the first input with the
      title, none dropped or added, in ascending number order with ties in
      field order; every number is non-empty. */
  lemma LoadPlayersSpec(xml: Option<seq<InputNode>>, title: string, k: int)
    requires LoadPlayers(xml, title).Ok? && xml.Some? && FirstTitled(xml.value, title).Some?
    ensures var inp := xml.value[FirstTitled(xml.value, title).value];
      var (numbers, names) := Scan(inp.texts, [], []);
      var paired := Pair(numbers, names);
      var r := LoadPlayers(xml, title).value;
      && Numeric(paired) && Numeric(r)
      && multiset(r) == multiset(paired)
      && SortedByNumber(r)
      && WithNumber(r, k) == WithNumber(paired, k)
      && forall i :: 0 <= i < |r| ==> r[i].0 != ""
  {
    var inp := xml.value[FirstTitled(xml.value, title).value];
    var (numbers, names) := Scan(inp.texts, [], []);
    var paired := Pair(numbers, names);
    SortStable(paired, k);
    var r := LoadPlayers(xml, title).value;
    forall i | 0 <= i < |r| ensures r[i].0 != "" {
      assert r[i] in multiset(paired);
    }
  }

  /** Without status XML or without an input of that title the roster is
      empty. */
  lemma NoInputNoRoster(xml: Option<seq<InputNode>>, title: string)
    requires xml.None? || forall j :: 0 <= j < |xml.value| ==> xml.value[j].title != title
    ensures LoadPlayers(xml, title) == Ok([])
  {
  }

  /** Pairing keeps each non-empty number and joins the name of its key. */
  lemma {:induction false} PairSpec(numbers: Query, names: Query, i: nat)
    requires i < |numbers| && numbers[i].1 != ""
    ensures (numbers[i].1, Get(names, numbers[i].0).GetOr("")) in Pair(numbers, names)
    decreases |numbers|
  {
    if i > 0 {
      PairSpec(numbers[1..], names, i - 1);
    }
  }

  /** Every entry comes from a key with a non-empty number, joined with
      that key's name: pairing invents nothing. */
  lemma {:induction false} PairOnlyNumbered(numbers: Query, names: Query, e: Entry)
    requires e in Pair(numbers, names)
    ensures exists i :: (0 <= i < |numbers| && numbers[i].1 != ""
                         && e == (numbers[i].1, Get(names, numbers[i].0).GetOr("")))
    decreases |numbers|
  {
    var (k, nr) := numbers[0];
    var rest := Pair(numbers[1..], names);
    if nr != "" && e == (nr, Get(names, k).GetOr("")) {
      assert numbers[0].1 != "" && e == (numbers[0].1, Get(names, numbers[0].0).GetOr(""));
    } else {
      assert e in rest;
      PairOnlyNumbered(numbers[1..], names, e);
      var i :| 0 <= i < |numbers[1..]| && numbers[1..][i].1 != ""
        && e == (numbers[1..][i].1, Get(names, numbers[1..][i].0).GetOr(""));
      assert numbers[i + 1] == numbers[1..][i];
    }
  }

  /** Pairing goes key by key in dict order: the entries of a prefix of
      the keys come before those of the rest. */
  lemma {:induction false} PairAppend(a: Query, b: Query, names: Query)
    ensures Pair(a + b, names) == Pair(a, names) + Pair(b, names)
    decreases |a|
  {
    if a == [] {
      assert a + b == b;
    } else {
      assert (a + b)[0] == a[0];
      assert (a + b)[1..] == a[1..] + b;
      PairAppend(a[1..], b, names);
    }
  }

  // ---------------------------------------------------------------
  // The OK buttons
  // ---------------------------------------------------------------

  datatype Choice = Choice(number: string, name: string, duration: int)

  /** What the dialog holds when a button is pressed. */
  datatype Selection = Selection(player: Option<Entry>, duration: Option<int>)

  /** What a button press does: nothing (the dialog stays open), or close
      with a result (`None` for cancel). */
  datatype Press = Stay | Close(result: Option<Choice>)

  predicate HasDuration(sel: Selection) {
    sel.duration.Some? && sel.duration.value != 0
  }

  /** "OK (Player + Time)": the selected player, or empty number and name
      when none is selected. */
  function OkPlayerAndTime(sel: Selection): Press {
    if !HasDuration(sel) then Stay
    else
      var (nr, nm) := sel.player.GetOr(("", ""));
      Close(Some(Choice(nr, nm, sel.duration.value)))
  }

  /** "OK (Time Only)". */
  function OkTimeOnly(sel: Selection): Press {
    if !HasDuration(sel) then Stay
    else Close(Some(Choice("", "", sel.duration.value)))
  }

  function Cancel(): Press {
    Close(None)
  }

  /** Both OK buttons close exactly when a duration is chosen, with that
      duration; the time-only button never carries a player, and the other
      one carries the selected player when there is one. */
  lemma OkButtonsSpec(sel: Selection)
    ensures OkPlayerAndTime(sel).Close? <==> HasDuration(sel)
    ensures OkTimeOnly(sel).Close? <==> HasDuration(sel)
    ensures OkTimeOnly(sel).Close? ==> OkTimeOnly(sel).result == Some(Choice("", "", sel.duration.value))
    ensures OkPlayerAndTime(sel).Close? ==> (
      && OkPlayerAndTime(sel).result.Some?
      && OkPlayerAndTime(sel).result.value.duration == sel.duration.value
      && (sel.player.Some? ==> OkPlayerAndTime(sel).result.value.number == sel.player.value.0
                               && OkPlayerAndTime(sel).result.value.name == sel.player.value.1)
      && (sel.player.None? ==> OkPlayerAndTime(sel).result.value == OkTimeOnly(sel).result.value))
  {
  }
}
