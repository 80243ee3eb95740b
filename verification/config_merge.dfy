/** The two soft merges of a loaded configuration into the defaults: the
    one nested in `load_config` (`config/vmix_config.py`) and `_merge`
    (`config/config_loader.py`). Both start from a copy of the defaults and
    assign each loaded entry in order: a dict over a dict is merged
    recursively, anything else replaces the default. */
module ConfigMerge {
  import opened Wrappers
  import opened JsonDict

  // ---------------------------------------------------------------
  // The merge of config/vmix_config.py
  // ---------------------------------------------------------------

  /** The loop over `loaded.items()` from entry `i` on, with `out` the
      dict built so far. A loaded dict merges into what `out` holds for the
      key when that is a dict too. */
  function LoadLoop(out: Dict, src: Json, i: nat): Dict
    requires src.JObj? && i <= |src.fields|
    decreases src, |src.fields| - i
  {
    if i == |src.fields| then out
    else
      var k := src.fields[i].0;
      var v := src.fields[i].1;
      var cur := Lookup(out, k);
      var nv := if v.JObj? && cur.Some? && cur.value.JObj? then JObj(LoadLoop(cur.value.fields, v, 0)) else v;
      LoadLoop(Put(out, k, nv), src, i + 1)
  }

  /** `_merge(default, loaded)` of `load_config`. */
  function LoadMerge(default: Dict, loaded: Dict): Dict {
    LoadLoop(default, JObj(loaded), 0)
  }

  /** The value a loaded entry leaves under its key: the recursive merge
      when both the default and the loaded value are dicts, otherwise the
      loaded value. */
  function Merged(dv: Option<Json>, v: Json): Json {
    if v.JObj? && dv.Some? && dv.value.JObj? then JObj(LoadMerge(dv.value.fields, v.fields)) else v
  }

  /** The keys of the entries from `i` on. */
  function KeysFrom(src: Json, i: nat): set<string>
    requires src.JObj? && i <= |src.fields|
  {
    Keys(src.fields[i..])
  }

  /** The entries from `i` on are entry `i` followed by those from
      `i + 1` on. */
  lemma SuffixLookup(fs: Dict, i: nat, k: string)
    requires i < |fs|
    ensures Lookup(fs[i..], fs[i].0) == Some(fs[i].1)
    ensures k != fs[i].0 ==> (k in Keys(fs[i..]) <==> k in Keys(fs[i + 1..]))
    ensures k != fs[i].0 && k in Keys(fs[i + 1..]) ==> Lookup(fs[i..], k) == Lookup(fs[i + 1..], k)
  {
    var t := fs[i..];
    assert t[0] == fs[i];
    assert forall j :: 1 <= j < |t| ==> t[j] == fs[i + 1..][j - 1];
    if k != fs[i].0 && k in Keys(fs[i + 1..]) {
      var j := IndexOf(fs[i + 1..], k);
      assert t[j + 1].0 == k;
      assert IndexOf(t, k) == j + 1;
    }
  }

  lemma {:induction false} LoadLoopSpec(out: Dict, src: Json, i: nat, k: string)
    requires src.JObj? && i <= |src.fields| && DistinctKeys(src.fields)
    ensures Lookup(LoadLoop(out, src, i), k) ==
      if k in KeysFrom(src, i) then Some(Merged(Lookup(out, k), Lookup(src.fields[i..], k).value))
      else Lookup(out, k)
    decreases |src.fields| - i
  {
    if i < |src.fields| {
      var fs := src.fields;
      var k0 := fs[i].0;
      var v := fs[i].1;
      var cur := Lookup(out, k0);
      var nv := if v.JObj? && cur.Some? && cur.value.JObj? then JObj(LoadLoop(cur.value.fields, v, 0)) else v;
      var out' := Put(out, k0, nv);
      assert LoadLoop(out, src, i) == LoadLoop(out', src, i + 1);
      LoadLoopSpec(out', src, i + 1, k);
      PutLookup(out, k0, nv, k);
      SuffixLookup(fs, i, k);
      if k == k0 {
        assert k0 !in KeysFrom(src, i + 1) by {
          assert forall j :: i < j < |fs| ==> fs[j].0 != k0;
        }
        assert nv == Merged(cur, v);
      }
    }
  }

  /** Every default key and every loaded key is in the result; a loaded
      key holds the loaded value, merged recursively into a dict default
      when it is a dict itself; any other key keeps its default. */
  lemma LoadMergeSpec(default: Dict, loaded: Dict)
    requires DistinctKeys(loaded)
    ensures Keys(LoadMerge(default, loaded)) == Keys(default) + Keys(loaded)
    ensures forall k :: k in Keys(loaded) ==>
      Lookup(LoadMerge(default, loaded), k) == Some(Merged(Lookup(default, k), Lookup(loaded, k).value))
    ensures forall k :: k !in Keys(loaded) ==> Lookup(LoadMerge(default, loaded), k) == Lookup(default, k)
  {
    var r := LoadMerge(default, loaded);
    assert loaded[0..] == loaded;
    forall k ensures Lookup(r, k) ==
      if k in Keys(loaded) then Some(Merged(Lookup(default, k), Lookup(loaded, k).value)) else Lookup(default, k)
    {
      LoadLoopSpec(default, JObj(loaded), 0, k);
    }
    forall k ensures k in Keys(r) <==> k in Keys(default) + Keys(loaded) {
      assert Lookup(r, k).Some? <==> k in Keys(r);
    }
  }

  /** Merging nothing in gives the defaults back, key order included. */
  lemma LoadMergeEmpty(default: Dict)
    ensures LoadMerge(default, []) == default
    ensures FillMerge(default, []) == default
  {
  }

  /** Merging a well-formed dict into itself gives it back. */
  lemma {:induction false} LoadLoopSelf(out: Dict, src: Json, i: nat)
    requires src.JObj? && i <= |src.fields| && WellFormed(src)
    requires forall j :: i <= j < |src.fields| ==> Lookup(out, src.fields[j].0) == Some(src.fields[j].1)
    ensures LoadLoop(out, src, i) == out
    decreases src, |src.fields| - i
  {
    if i < |src.fields| {
      var k := src.fields[i].0;
      var v := src.fields[i].1;
      if v.JObj? {
        forall j | 0 <= j < |v.fields| ensures Lookup(v.fields, v.fields[j].0) == Some(v.fields[j].1) {
          LookupEntry(v.fields, j);
        }
        LoadLoopSelf(v.fields, v, 0);
      }
      PutSame(out, k, v);
      LoadLoopSelf(out, src, i + 1);
    }
  }

  lemma LoadMergeSelf(d: Dict)
    requires WellFormed(JObj(d))
    ensures LoadMerge(d, d) == d
  {
    forall j | 0 <= j < |d| ensures Lookup(d, d[j].0) == Some(d[j].1) {
      LookupEntry(d, j);
    }
    LoadLoopSelf(d, JObj(d), 0);
  }

  // ---------------------------------------------------------------
  // The merge of config/config_loader.py
  // ---------------------------------------------------------------

  /** The loop of `_merge(default, user)` from entry `i` on: a key the
      defaults lack takes the user's value; a dict over a default dict is
      merged recursively into the default; anything else takes the user's
      value. */
  function FillLoop(default: Dict, out: Dict, src: Json, i: nat): Dict
    requires src.JObj? && i <= |src.fields|
    decreases src, |src.fields| - i
  {
    if i == |src.fields| then out
    else
      var k := src.fields[i].0;
      var v := src.fields[i].1;
      var nv :=
        if Lookup(default, k).None? then v
        else if v.JObj? && Lookup(default, k).value.JObj? then
          var dk := Lookup(default, k).value.fields;
          JObj(FillLoop(dk, dk, v, 0))
        else v;
      FillLoop(default, Put(out, k, nv), src, i + 1)
  }

  function FillMerge(default: Dict, user: Dict): Dict {
    FillLoop(default, default, JObj(user), 0)
  }

  lemma {:induction false} LoopsAgree(default: Dict, out: Dict, src: Json, i: nat)
    requires src.JObj? && i <= |src.fields| && WellFormed(src)
    requires forall j :: i <= j < |src.fields| ==> Lookup(out, src.fields[j].0) == Lookup(default, src.fields[j].0)
    ensures FillLoop(default, out, src, i) == LoadLoop(out, src, i)
    decreases src, |src.fields| - i
  {
    if i < |src.fields| {
      var k := src.fields[i].0;
      var v := src.fields[i].1;
      var dv := Lookup(default, k);
      if v.JObj? && dv.Some? && dv.value.JObj? {
        LoopsAgree(dv.value.fields, dv.value.fields, v, 0);
      }
      var nv := if v.JObj? && dv.Some? && dv.value.JObj? then JObj(LoadLoop(dv.value.fields, v, 0)) else v;
      forall j | i + 1 <= j < |src.fields|
        ensures Lookup(Put(out, k, nv), src.fields[j].0) == Lookup(default, src.fields[j].0)
      {
        PutLookup(out, k, nv, src.fields[j].0);
      }
      LoopsAgree(default, Put(out, k, nv), src, i + 1);
    }
  }

  /** The two merges compute the same dict, key order included: the
      branch for a key the defaults lack does what the general branch would
      do. */
  lemma MergesAgree(default: Dict, user: Dict)
    requires WellFormed(JObj(user))
    ensures FillMerge(default, user) == LoadMerge(default, user)
  {
    LoopsAgree(default, default, JObj(user), 0);
  }

  /** `_merge` of `config/config_loader.py` fills in every default key
      and drops no user key. */
  lemma FillMergeKeys(default: Dict, user: Dict)
    requires WellFormed(JObj(user))
    ensures Keys(FillMerge(default, user)) == Keys(default) + Keys(user)
  {
    MergesAgree(default, user);
    LoadMergeSpec(default, user);
  }
}
