/** One vMix Function call as the legacy client sends it: the keyword
    arguments of `call_function`, the query it builds from them, and the URL
    that carries the query (`_build_url` with `urlencode`). Everything the
    scoreboard does to vMix is a sequence of these calls. */
module VmixCall {
  import opened Wrappers
  import opened PyText

  // ---------------------------------------------------------------
  // Keyword arguments and the query dict
  // ---------------------------------------------------------------

  /** A Python value passed as a keyword argument of `call_function`. */
  datatype PyValue = PyNone | PyStr(s: string) | PyInt(i: int)

  /** Python `str(v)` for a value other than `None`. */
  function Str(v: PyValue): (r: string)
    requires !v.PyNone?
    ensures v.PyStr? ==> r == v.s
    ensures v.PyInt? ==> ParseInt(r) == Some(v.i)
  {
    match v
    case PyStr(s) => s
    case PyInt(i) => ParseIntToString(i); IntToString(i)
  }

  /** An insertion-ordered Python dict from names to text. */
  type Query = seq<(string, string)>

  predicate KeysDistinct(q: Query) {
    forall i, j :: 0 <= i < j < |q| ==> q[i].0 != q[j].0
  }

  function Keys(q: Query): (r: set<string>)
    ensures forall i :: 0 <= i < |q| ==> q[i].0 in r
    ensures forall k :: k in r ==> exists i :: 0 <= i < |q| && q[i].0 == k
  {
    set i | 0 <= i < |q| :: q[i].0
  }

  /** `q.get(k)`. */
  function Get(q: Query, k: string): Option<string> {
    if |q| == 0 then None
    else if q[0].0 == k then Some(q[0].1)
    else Get(q[1..], k)
  }

  /** `q[k] = v`: an existing key keeps its position and takes the new
      value; a new key goes to the end. */
  function Put(q: Query, k: string, v: string): (r: Query)
    ensures |r| == if k in Keys(q) then |q| else |q| + 1
    ensures |q| > 0 ==> |r| > 0 && r[0].0 == q[0].0
    ensures |q| > 0 && q[0].0 != k ==> r[0] == q[0]
  {
    if |q| == 0 then [(k, v)]
    else if q[0].0 == k then [(k, v)] + q[1..]
    else
      KeysCons(q);
      [q[0]] + Put(q[1..], k, v)
  }

  /** The keys of a non-empty query are its first key and the keys of the
      rest. */
  lemma KeysCons(q: Query)
    requires |q| > 0
    ensures Keys(q) == {q[0].0} + Keys(q[1..])
  {
    forall x ensures x in Keys(q) <==> x in {q[0].0} + Keys(q[1..]) {
      if x in Keys(q) {
        var i :| 0 <= i < |q| && q[i].0 == x;
        if i > 0 {
          assert q[1..][i - 1].0 == x;
        }
      }
      if x in Keys(q[1..]) {
        var i :| 0 <= i < |q[1..]| && q[1..][i].0 == x;
        assert q[i + 1].0 == x;
      }
    }
  }

  /** After `q[k] = v`, reading `k` gives `v`, every other key reads as
      before, and no key is duplicated. */
  lemma PutSpec(q: Query, k: string, v: string)
    requires KeysDistinct(q)
    ensures KeysDistinct(Put(q, k, v))
    ensures Keys(Put(q, k, v)) == Keys(q) + {k}
    ensures Get(Put(q, k, v), k) == Some(v)
    ensures forall k' :: k' != k ==> Get(Put(q, k, v), k') == Get(q, k')
  {
    PutKeys(q, k, v);
    PutDistinct(q, k, v);
    PutGet(q, k, v);
  }

  lemma {:induction false} PutKeys(q: Query, k: string, v: string)
    ensures Keys(Put(q, k, v)) == Keys(q) + {k}
  {
    var r := Put(q, k, v);
    if |q| > 0 {
      KeysCons(q);
      KeysCons(r);
      if q[0].0 == k {
        assert r[1..] == q[1..];
      } else {
        PutKeys(q[1..], k, v);
        assert r[1..] == Put(q[1..], k, v);
      }
    } else {
      KeysCons(r);
      assert r[1..] == [];
    }
  }

  lemma {:induction false} PutGet(q: Query, k: string, v: string)
    ensures Get(Put(q, k, v), k) == Some(v)
    ensures forall k' :: k' != k ==> Get(Put(q, k, v), k') == Get(q, k')
  {
    if |q| > 0 {
      var r := Put(q, k, v);
      if q[0].0 == k {
        assert r[1..] == q[1..];
      } else {
        PutGet(q[1..], k, v);
        assert r[1..] == Put(q[1..], k, v);
      }
    }
  }

  lemma {:induction false} PutDistinct(q: Query, k: string, v: string)
    requires KeysDistinct(q)
    ensures KeysDistinct(Put(q, k, v))
  {
    if |q| > 0 {
      var r := Put(q, k, v);
      if q[0].0 == k {
        assert r[1..] == q[1..];
        assert forall j :: 0 < j < |r| ==> r[j] == q[j];
      } else {
        PutDistinct(q[1..], k, v);
        PutKeys(q[1..], k, v);
        assert r[1..] == Put(q[1..], k, v);
        forall j | 0 < j < |r| ensures r[0].0 != r[j].0 {
          assert r[j] == r[1..][j - 1];
          assert r[j].0 in Keys(q[1..]) + {k};
          if r[j].0 in Keys(q[1..]) {
            var i :| 0 <= i < |q[1..]| && q[1..][i].0 == r[j].0;
            assert q[i + 1].0 == r[j].0;
          }
        }
      }
    }
  }

  /** The dict `call_function` builds: `Function` first, then each keyword
      argument in order, `None` skipped and everything else through `str`. */
  function CallQuery(fn: string, kwargs: seq<(string, PyValue)>): (q: Query)
    ensures |q| > 0 && q[0].0 == "Function"
  {
    AddParams([("Function", fn)], kwargs)
  }

  function AddParams(q: Query, kwargs: seq<(string, PyValue)>): (r: Query)
    requires |q| > 0
    decreases |kwargs|
    ensures |r| > 0 && r[0].0 == q[0].0
    ensures (forall i :: 0 <= i < |kwargs| ==> kwargs[i].0 != q[0].0) ==> r[0] == q[0]
  {
    if |kwargs| == 0 then q
    else
      var q' := if kwargs[0].1.PyNone? then q else Put(q, kwargs[0].0, Str(kwargs[0].1));
      AddParams(q', kwargs[1..])
  }

  predicate NamesDistinct(kwargs: seq<(string, PyValue)>) {
    forall i, j :: 0 <= i < j < |kwargs| ==> kwargs[i].0 != kwargs[j].0
  }

  /** What the added parameters read as: each name carries the `str` of its
      last non-`None` value, and a name whose values were all `None` reads as
      it did before. */
  function Expected(q: Query, kwargs: seq<(string, PyValue)>, k: string): Option<string>
  {
    if |kwargs| == 0 then Get(q, k)
    else
      var last := kwargs[|kwargs| - 1];
      if last.0 == k && !last.1.PyNone? then Some(Str(last.1))
      else Expected(q, kwargs[..|kwargs| - 1], k)
  }

  lemma {:induction false} AddParamsSpec(q: Query, kwargs: seq<(string, PyValue)>)
    requires |q| > 0 && KeysDistinct(q)
    ensures KeysDistinct(AddParams(q, kwargs))
    ensures forall k :: Get(AddParams(q, kwargs), k) == Expected(q, kwargs, k)
    decreases |kwargs|
  {
    if |kwargs| > 0 {
      var q' := if kwargs[0].1.PyNone? then q else Put(q, kwargs[0].0, Str(kwargs[0].1));
      if !kwargs[0].1.PyNone? {
        PutSpec(q, kwargs[0].0, Str(kwargs[0].1));
      }
      AddParamsSpec(q', kwargs[1..]);
      forall k ensures Expected(q', kwargs[1..], k) == Expected(q, kwargs, k) {
        ExpectedShift(q, q', kwargs, k);
      }
    }
  }

  lemma {:induction false} ExpectedShift(q: Query, q': Query, kwargs: seq<(string, PyValue)>, k: string)
    requires |kwargs| > 0
    requires forall k' :: (Get(q', k') ==
      (if kwargs[0].0 == k' && !kwargs[0].1.PyNone? then Some(Str(kwargs[0].1)) else Get(q, k')))
    ensures Expected(q', kwargs[1..], k) == Expected(q, kwargs, k)
    decreases |kwargs|
  {
    if |kwargs| > 1 {
      var n := |kwargs|;
      assert kwargs[1..][..n - 2] == kwargs[..n - 1][1..];
      assert kwargs[1..][n - 2] == kwargs[n - 1];
      ExpectedShift(q, q', kwargs[..n - 1], k);
    }
  }

  /** With distinct keyword names (Python guarantees this), the query of
      `call_function` puts `Function` first with the given name, maps each
      non-`None` argument to its `str`, and leaves `None` arguments out. */
  lemma CallQuerySpec(fn: string, kwargs: seq<(string, PyValue)>)
    requires NamesDistinct(kwargs)
    requires forall i :: 0 <= i < |kwargs| ==> kwargs[i].0 != "Function"
    ensures CallQuery(fn, kwargs)[0] == ("Function", fn)
    ensures KeysDistinct(CallQuery(fn, kwargs))
    ensures forall i :: 0 <= i < |kwargs| ==>
      Get(CallQuery(fn, kwargs), kwargs[i].0) ==
        (if kwargs[i].1.PyNone? then None else Some(Str(kwargs[i].1)))
  {
    var q0: Query := [("Function", fn)];
    AddParamsSpec(q0, kwargs);
    forall i | 0 <= i < |kwargs|
      ensures Expected(q0, kwargs, kwargs[i].0) ==
        (if kwargs[i].1.PyNone? then None else Some(Str(kwargs[i].1)))
    {
      ExpectedOwn(q0, kwargs, i);
    }
  }

  lemma {:induction false} ExpectedOwn(q: Query, kwargs: seq<(string, PyValue)>, i: int)
    requires NamesDistinct(kwargs) && 0 <= i < |kwargs|
    requires Get(q, kwargs[i].0) == None
    ensures Expected(q, kwargs, kwargs[i].0) ==
      (if kwargs[i].1.PyNone? then None else Some(Str(kwargs[i].1)))
    decreases |kwargs|
  {
    var n := |kwargs|;
    if i < n - 1 {
      ExpectedOwn(q, kwargs[..n - 1], i);
    } else {
      ExpectedAbsent(q, kwargs[..n - 1], kwargs[i].0);
    }
  }

  lemma {:induction false} ExpectedAbsent(q: Query, kwargs: seq<(string, PyValue)>, k: string)
    requires forall j :: 0 <= j < |kwargs| ==> kwargs[j].0 != k
    ensures Expected(q, kwargs, k) == Get(q, k)
    decreases |kwargs|
  {
    if |kwargs| > 0 {
      ExpectedAbsent(q, kwargs[..|kwargs| - 1], k);
    }
  }

  // ---------------------------------------------------------------
  // The call log entry
  // ---------------------------------------------------------------

  /** A `call_function(function, **params)` with every parameter a string,
      which is how the scoreboard engine calls it. */
  datatype Call = Call(fn: string, params: seq<(string, string)>)

  function AsKwargs(params: seq<(string, string)>): (r: seq<(string, PyValue)>)
    ensures |r| == |params|
    ensures forall i :: 0 <= i < |params| ==> r[i] == (params[i].0, PyStr(params[i].1))
  {
    if |params| == 0 then [] else [(params[0].0, PyStr(params[0].1))] + AsKwargs(params[1..])
  }

  function QueryOf(c: Call): Query {
    CallQuery(c.fn, AsKwargs(c.params))
  }

  /** `Function=<f>&Input=<n>&SelectedName=<field>`. */
  function Fn(fn: string, input: string, field: string): Call {
    Call(fn, [("Input", input), ("SelectedName", field)])
  }

  /** `Function=<f>&Input=<n>&SelectedName=<field>&Value=<v>`. */
  function FnV(fn: string, input: string, field: string, value: string): Call {
    Call(fn, [("Input", input), ("SelectedName", field), ("Value", value)])
  }

  /** Assigning a key the query lacks appends it. */
  lemma {:induction false} PutFresh(q: Query, k: string, v: string)
    requires forall i :: 0 <= i < |q| ==> q[i].0 != k
    ensures Put(q, k, v) == q + [(k, v)]
  {
    if |q| > 0 {
      assert k !in Keys(q);
      PutFresh(q[1..], k, v);
      assert q == [q[0]] + q[1..];
    }
  }

  /** The engine's calls carry exactly the three parameters after
      `Function`, in the order they were passed. */
  lemma FnVQuery(fn: string, input: string, field: string, value: string)
    ensures QueryOf(FnV(fn, input, field, value)) ==
      [("Function", fn), ("Input", input), ("SelectedName", field), ("Value", value)]
  {
    var kw := AsKwargs(FnV(fn, input, field, value).params);
    var q0: Query := [("Function", fn)];
    var q1: Query := q0 + [("Input", input)];
    var q2: Query := q1 + [("SelectedName", field)];
    var q3: Query := q2 + [("Value", value)];
    assert kw[0] == ("Input", PyStr(input)) && kw[1..][0] == ("SelectedName", PyStr(field))
      && kw[1..][1..][0] == ("Value", PyStr(value)) && |kw| == 3;
    PutFresh(q0, "Input", input);
    PutFresh(q1, "SelectedName", field);
    PutFresh(q2, "Value", value);
    assert AddParams(q3, kw[1..][1..][1..]) == q3;
    assert AddParams(q2, kw[1..][1..]) == AddParams(q3, kw[1..][1..][1..]);
    assert AddParams(q1, kw[1..]) == AddParams(q2, kw[1..][1..]);
    assert AddParams(q0, kw) == AddParams(q1, kw[1..]);
  }

  // ---------------------------------------------------------------
  // URL building: quote_plus, urlencode and _build_url
  // ---------------------------------------------------------------

  type Byte = b: int | 0 <= b < 256

  /** The characters `quote_plus` never escapes. */
  predicate AlwaysSafe(c: char) {
    ('a' <= c <= 'z') || ('A' <= c <= 'Z') || ('0' <= c <= '9')
    || c == '_' || c == '.' || c == '-' || c == '~'
  }

  /** The UTF-8 encoding of one character. */
  function Utf8Char(c: char): (r: seq<Byte>)
    ensures 1 <= |r| <= 4
    ensures (|r| == 1) == (c as int < 0x80)
    ensures |r| == 1 ==> r[0] == c as int
  {
    var n := c as int;
    if n < 0x80 then [n]
    else if n < 0x800 then [0xC0 + n / 64, 0x80 + n % 64]
    else if n < 0x10000 then [0xE0 + n / 4096, 0x80 + (n / 64) % 64, 0x80 + n % 64]
    else [0xF0 + n / 262144, 0x80 + (n / 4096) % 64, 0x80 + (n / 64) % 64, 0x80 + n % 64]
  }

  function Utf8(s: string): seq<Byte> {
    if |s| == 0 then [] else Utf8Char(s[0]) + Utf8(s[1..])
  }

  function HexDigit(d: nat): (c: char)
    requires d < 16
  {
    if d < 10 then ('0' as int + d) as char else ('A' as int + d - 10) as char
  }

  function HexValue(c: char): Option<nat> {
    if '0' <= c <= '9' then Some(c as int - '0' as int)
    else if 'A' <= c <= 'F' then Some(c as int - 'A' as int + 10)
    else if 'a' <= c <= 'f' then Some(c as int - 'a' as int + 10)
    else None
  }

  lemma HexRoundTrip(d: nat)
    requires d < 16
    ensures HexValue(HexDigit(d)) == Some(d)
  {
  }

  /** `%XX` with upper-case hex digits, one per byte. */
  function Escape(bs: seq<Byte>): string {
    if |bs| == 0 then "" else ['%', HexDigit(bs[0] / 16), HexDigit(bs[0] % 16)] + Escape(bs[1..])
  }

  function QuoteChar(c: char): string {
    if AlwaysSafe(c) then [c]
    else if c == ' ' then "+"
    else Escape(Utf8Char(c))
  }

  /** Python `urllib.parse.quote_plus(s)` with the default `safe=''`. */
  function QuotePlus(s: string): (r: string)
    ensures forall i :: 0 <= i < |r| ==> AlwaysSafe(r[i]) || r[i] == '+' || r[i] == '%'
  {
    if |s| == 0 then ""
    else
      var h := QuoteChar(s[0]);
      assert forall i :: 0 <= i < |h| ==> AlwaysSafe(h[i]) || h[i] == '+' || h[i] == '%' by {
        EscapeAlphabet(Utf8Char(s[0]));
      }
      h + QuotePlus(s[1..])
  }

  lemma {:induction false} EscapeAlphabet(bs: seq<Byte>)
    ensures forall i :: 0 <= i < |Escape(bs)| ==>
      AlwaysSafe(Escape(bs)[i]) || Escape(bs)[i] == '%'
  {
    if |bs| > 0 {
      EscapeAlphabet(bs[1..]);
      var h := ['%', HexDigit(bs[0] / 16), HexDigit(bs[0] % 16)];
      assert Escape(bs) == h + Escape(bs[1..]);
      forall i | 0 <= i < |Escape(bs)|
        ensures AlwaysSafe(Escape(bs)[i]) || Escape(bs)[i] == '%'
      {
        if i >= 3 { assert Escape(bs)[i] == Escape(bs[1..])[i - 3]; }
      }
    }
  }

  /** Reading percent-escapes back into bytes, as `unquote_plus` does before
      it decodes UTF-8: `+` is a space, `%XX` is one byte, and any other
      ASCII character stands for itself. */
  function UnquoteBytes(t: string): Option<seq<Byte>>
    decreases |t|
  {
    if |t| == 0 then Some([])
    else if t[0] == '+' then
      match UnquoteBytes(t[1..])
      case Some(rest) => Some([0x20] + rest)
      case None => None
    else if t[0] == '%' then
      if |t| < 3 then None
      else match (HexValue(t[1]), HexValue(t[2]), UnquoteBytes(t[3..]))
        case (Some(hi), Some(lo), Some(rest)) => Some([hi * 16 + lo] + rest)
        case _ => None
    else if t[0] as int < 0x80 then
      match UnquoteBytes(t[1..])
      case Some(rest) => Some([t[0] as int] + rest)
      case None => None
    else None
  }

  lemma {:induction false} UnquoteEscape(bs: seq<Byte>, rest: string, tail: seq<Byte>)
    requires UnquoteBytes(rest) == Some(tail)
    ensures UnquoteBytes(Escape(bs) + rest) == Some(bs + tail)
  {
    if |bs| > 0 {
      UnquoteEscape(bs[1..], rest, tail);
      var t := Escape(bs) + rest;
      assert t == ['%', HexDigit(bs[0] / 16), HexDigit(bs[0] % 16)] + (Escape(bs[1..]) + rest);
      assert t[3..] == Escape(bs[1..]) + rest;
      HexRoundTrip(bs[0] / 16);
      HexRoundTrip(bs[0] % 16);
      assert t[1] == HexDigit(bs[0] / 16) && t[2] == HexDigit(bs[0] % 16);
      assert (bs[0] / 16) * 16 + bs[0] % 16 == bs[0];
      assert bs == [bs[0]] + bs[1..];
      assert [bs[0]] + (bs[1..] + tail) == bs + tail;
    } else {
      assert Escape(bs) + rest == rest;
      assert bs + tail == tail;
    }
  }

  lemma UnquoteChar(c: char, rest: string, tail: seq<Byte>)
    requires UnquoteBytes(rest) == Some(tail)
    ensures UnquoteBytes(QuoteChar(c) + rest) == Some(Utf8Char(c) + tail)
  {
    if AlwaysSafe(c) || c == ' ' {
      assert (QuoteChar(c) + rest)[1..] == rest;
    } else {
      UnquoteEscape(Utf8Char(c), rest, tail);
    }
  }

  /** `quote_plus` loses nothing: reading the escapes back gives exactly the
      UTF-8 bytes of the original text. */
  lemma {:induction false} QuotePlusRoundTrip(s: string)
    ensures UnquoteBytes(QuotePlus(s)) == Some(Utf8(s))
  {
    if |s| > 0 {
      QuotePlusRoundTrip(s[1..]);
      UnquoteChar(s[0], QuotePlus(s[1..]), Utf8(s[1..]));
    }
  }

  function EncodePair(p: (string, string)): string {
    QuotePlus(p.0) + "=" + QuotePlus(p.1)
  }

  /** Python `urlencode(q)`: `k=v` pairs joined with `&`. */
  function Urlencode(q: Query): string {
    if |q| == 0 then ""
    else if |q| == 1 then EncodePair(q[0])
    else EncodePair(q[0]) + "&" + Urlencode(q[1..])
  }

  function EncodePairs(q: Query): (r: seq<string>)
    ensures |r| == |q|
    ensures forall i :: 0 <= i < |q| ==> r[i] == EncodePair(q[i])
  {
    if |q| == 0 then [] else [EncodePair(q[0])] + EncodePairs(q[1..])
  }

  lemma NoSeparatorInQuoted(s: string)
    ensures '&' !in QuotePlus(s) && '=' !in QuotePlus(s)
  {
    var r := QuotePlus(s);
    assert forall i :: 0 <= i < |r| ==> r[i] != '&' && r[i] != '=';
  }

  /** Each encoded pair splits on `=` back into its two quoted halves. */
  lemma EncodePairSplits(p: (string, string))
    ensures '&' !in EncodePair(p)
    ensures Split(EncodePair(p), '=') == [QuotePlus(p.0), QuotePlus(p.1)]
  {
    NoSeparatorInQuoted(p.0);
    NoSeparatorInQuoted(p.1);
    assert EncodePair(p) == QuotePlus(p.0) + ['='] + QuotePlus(p.1);
    SplitTwo(QuotePlus(p.0), QuotePlus(p.1), '=');
  }

  /** The query string is unambiguous: splitting it on `&` gives back one
      encoded pair per dict entry, in order. */
  lemma {:induction false} UrlencodeSplits(q: Query)
    requires |q| > 0
    ensures Split(Urlencode(q), '&') == EncodePairs(q)
  {
    EncodePairSplits(q[0]);
    if |q| == 1 {
      assert EncodePairs(q) == [EncodePair(q[0])];
    } else {
      UrlencodeSplits(q[1..]);
      assert Urlencode(q) == EncodePair(q[0]) + ['&'] + Urlencode(q[1..]);
      SplitCons(EncodePair(q[0]), Urlencode(q[1..]), '&');
    }
  }

  /** The path `_build_url` uses: a leading `/` is added when missing. */
  function NormalisePath(path: string): (r: string)
    ensures StartsWith(r, "/")
    ensures r == path || r == "/" + path
    ensures r == path <==> StartsWith(path, "/")
  {
    if StartsWith(path, "/") then path else "/" + path
  }

  lemma NormalisePathIdempotent(path: string)
    ensures NormalisePath(NormalisePath(path)) == NormalisePath(path)
  {
  }

  /** `_build_url(path, params)` on the client's base URL
      `http://host:port`: the query is attached only when there are
      parameters. */
  function BuildUrl(host: string, port: int, path: string, params: Query): (url: string)
    ensures StartsWith(url, "http://" + host + ":" + IntToString(port) + NormalisePath(path))
  {
    var base := "http://" + host + ":" + IntToString(port) + NormalisePath(path);
    if |params| > 0 then base + "?" + Urlencode(params) else base
  }

  /** With no parameters the URL is the base plus the normalised path; with
      parameters it is followed by `?` and a query that splits back into
      the encoded pairs. */
  lemma BuildUrlShape(host: string, port: int, path: string, params: Query)
    ensures var base := "http://" + host + ":" + IntToString(port) + NormalisePath(path);
      && (|params| == 0 ==> BuildUrl(host, port, path, params) == base)
      && (|params| > 0 ==>
            && BuildUrl(host, port, path, params)[..|base|] == base
            && BuildUrl(host, port, path, params)[|base|] == '?'
            && Split(BuildUrl(host, port, path, params)[|base| + 1..], '&') == EncodePairs(params))
  {
    var base := "http://" + host + ":" + IntToString(port) + NormalisePath(path);
    if |params| > 0 {
      var url := BuildUrl(host, port, path, params);
      assert url[|base| + 1..] == Urlencode(params);
      UrlencodeSplits(params);
    }
  }
}
