/** The low-time alert of the penalty controller
    (`controllers/penalty_controller.py`): the four penalty slots are read
    from the scoreboard, and a side's multiview overlay is switched on when
    one of its penalties has 1 to 5 seconds left and off when none has. The
    overlay is switched only on a change, so the controller remembers what
    it last switched. */
module PenaltyAlert {
  import opened Wrappers
  import opened PyText
  import opened ScoreboardTime
  import opened TimeParsers
  import opened VmixCall

  // ---------------------------------------------------------------
  // Reading the slots
  // ---------------------------------------------------------------

  /** What one `get_text` on the scoreboard gives: a text, `None`, or an
      exception. */
  datatype Reading = Text(s: string) | NoText | Raised

  /** `_read_penalty`: one entry per mapped field, in the mapping's order,
      holding the stripped text, or `""` when the read gave `None` or
      raised. The reads themselves are the parameter `read`. */
  function ReadPenalty(fields: seq<(string, string)>, read: string -> Reading): (out: seq<(string, string)>)
    ensures |out| == |fields|
    ensures forall i :: 0 <= i < |fields| ==> out[i].0 == fields[i].0
    ensures forall i :: 0 <= i < |fields| ==> Strip(out[i].1) == out[i].1
    ensures forall i :: 0 <= i < |fields| && read(fields[i].1).Text? ==>
      out[i].1 == Strip(read(fields[i].1).s)
    ensures forall i :: 0 <= i < |fields| && !read(fields[i].1).Text? ==> out[i].1 == ""
  {
    if |fields| == 0 then []
    else
      var v := match read(fields[0].1)
        case Text(s) => Strip(s)
        case _ => "";
      StripIdempotent(if read(fields[0].1).Text? then read(fields[0].1).s else "");
      [(fields[0].0, v)] + ReadPenalty(fields[1..], read)
  }

  /** `get_all_penalty_status`: the four slots, home before away. */
  datatype PenaltyStatus = PenaltyStatus(
    home1: seq<(string, string)>, home2: seq<(string, string)>,
    away1: seq<(string, string)>, away2: seq<(string, string)>)

  // ---------------------------------------------------------------
  // The alert condition and the hysteresis
  // ---------------------------------------------------------------

  /** The multiview overlay indexes of the two sides. */
  const MvHome: int := 9
  const MvAway: int := 10

  /** Whether the controller believes each side's overlay is on. */
  datatype AlertState = AlertState(homeOn: bool, awayOn: bool)

  /** `set_multiview_overlay_on(input, index)` or `..._off(...)`. */
  datatype MvCall = MvOverlay(on: bool, input: string, index: int)

  /** 1 to 5 seconds left. */
  predicate InAlert(secs: int) {
    0 < secs <= 5
  }

  /** A side's alert condition over its two slot times. */
  predicate HasAlert(t1: string, t2: string) {
    InAlert(PenaltySeconds(t1)) || InAlert(PenaltySeconds(t2))
  }

  /** The reference for the hysteresis: a call exactly when the condition
      differs from what the overlay is believed to show, switching it to the
      condition. */
  function EdgeCalls(on: bool, has: bool, input: string, mv: int): seq<MvCall> {
    if on == has then [] else [MvOverlay(has, input, mv)]
  }

  /** One side's `if has and not on ... elif not has and on ...`. */
  function Switch(on: bool, has: bool, input: string, mv: int): (r: (bool, seq<MvCall>))
    ensures r.0 == has
    ensures r.1 == EdgeCalls(on, has, input, mv)
  {
    if has && !on then (true, [MvOverlay(true, input, mv)])
    else if !has && on then (false, [MvOverlay(false, input, mv)])
    else (on, [])
  }

  /** `auto_refresh_mv` once the four times are read: home first, then
      away. Afterwards each side's belief equals its condition. */
  function AutoRefresh(s: AlertState, input: string, h1: string, h2: string, a1: string, a2: string)
    : (r: (AlertState, seq<MvCall>))
    ensures r.0 == AlertState(HasAlert(h1, h2), HasAlert(a1, a2))
    ensures r.1 == EdgeCalls(s.homeOn, HasAlert(h1, h2), input, MvHome)
      + EdgeCalls(s.awayOn, HasAlert(a1, a2), input, MvAway)
  {
    var (home, hc) := Switch(s.homeOn, HasAlert(h1, h2), input, MvHome);
    var (away, ac) := Switch(s.awayOn, HasAlert(a1, a2), input, MvAway);
    (AlertState(home, away), hc + ac)
  }

  /** What `auto_refresh_mv` leaves behind: the new belief, the calls made,
      and the exception it ended with, if any. */
  datatype AlertOutcome = AlertOutcome(state: AlertState, calls: seq<MvCall>, error: Option<Error>)

  /** The exception a failing overlay call raises. Nothing in the controller
      catches it. `core/vmix_client.py` defines neither overlay method, so
      with that client every call fails this way. */
  function MvFailure(c: MvCall): Error {
    AttributeError(if c.on then "set_multiview_overlay_on" else "set_multiview_overlay_off")
  }

  /** Whether one of `calls` fails. */
  predicate AnyRefused(calls: seq<MvCall>, refuses: set<MvCall>) {
    exists i :: 0 <= i < |calls| && calls[i] in refuses
  }

  /** Whether all four slots have a `time` entry. */
  predicate AllTimes(st: PenaltyStatus) {
    && Get(st.home1, "time").Some? && Get(st.home2, "time").Some?
    && Get(st.away1, "time").Some? && Get(st.away2, "time").Some?
  }

  /** `auto_refresh_mv` on the slots as read. A slot without a `time` entry
      raises `KeyError` at the point its time is looked up, so a missing
      away time comes after the home side has already been switched. The
      overlay calls in `refuses` fail. A call is made before the belief is
      updated, so a failing call leaves its side's belief as it was, and a
      failing home call also skips the away side. */
  function AutoRefreshMv(s: AlertState, input: string, st: PenaltyStatus, refuses: set<MvCall>): (r: AlertOutcome)
    ensures r.error.None? <==> AllTimes(st) && !AnyRefused(r.calls, refuses)
    ensures r.error.None? ==>
      var x := AutoRefresh(s, input, Get(st.home1, "time").value, Get(st.home2, "time").value,
                           Get(st.away1, "time").value, Get(st.away2, "time").value);
      r.state == x.0 && r.calls == x.1
    ensures r.error.Some? && !AnyRefused(r.calls, refuses) ==> r.error.value == KeyError("time")
    ensures (Get(st.home1, "time").None? || Get(st.home2, "time").None?) ==> r.state == s && r.calls == []
  {
    match (Get(st.home1, "time"), Get(st.home2, "time"))
    case (Some(h1), Some(h2)) =>
      var (home, hc) := Switch(s.homeOn, HasAlert(h1, h2), input, MvHome);
      if hc != [] && hc[0] in refuses then AlertOutcome(s, hc, Some(MvFailure(hc[0])))
      else
        var s1 := s.(homeOn := home);
        (match (Get(st.away1, "time"), Get(st.away2, "time"))
         case (Some(a1), Some(a2)) =>
           var (away, ac) := Switch(s1.awayOn, HasAlert(a1, a2), input, MvAway);
           if ac != [] && ac[0] in refuses then
             assert (hc + ac)[|hc|] == ac[0];
             AlertOutcome(s1, hc + ac, Some(MvFailure(ac[0])))
           else AlertOutcome(s1.(awayOn := away), hc + ac, None)
         case _ => AlertOutcome(s1, hc, Some(KeyError("time"))))
    case _ => AlertOutcome(s, [], Some(KeyError("time")))
  }

  /** A failing home call ends the refresh with its exception before the
      belief is updated: the state is unchanged and the away side is
      skipped. */
  lemma RefusedHomeKeepsState(s: AlertState, input: string, st: PenaltyStatus, refuses: set<MvCall>)
    requires Get(st.home1, "time").Some? && Get(st.home2, "time").Some?
    ensures var hc := EdgeCalls(s.homeOn, HasAlert(Get(st.home1, "time").value, Get(st.home2, "time").value), input, MvHome);
      AnyRefused(hc, refuses) ==>
      AutoRefreshMv(s, input, st, refuses) == AlertOutcome(s, hc, Some(MvFailure(hc[0])))
  {
  }

  /** Once the home side is switched, an error (a missing away time or a
      failing away call) leaves the home belief at its condition, the home
      calls made, and the away belief as it was. */
  lemma LateErrorKeepsHome(s: AlertState, input: string, st: PenaltyStatus, refuses: set<MvCall>)
    requires Get(st.home1, "time").Some? && Get(st.home2, "time").Some?
    ensures var r := AutoRefreshMv(s, input, st, refuses);
      var has := HasAlert(Get(st.home1, "time").value, Get(st.home2, "time").value);
      var hc := EdgeCalls(s.homeOn, has, input, MvHome);
      (r.error.Some? && !AnyRefused(hc, refuses) ==>
         r.state == AlertState(has, s.awayOn) && |hc| <= |r.calls| && r.calls[..|hc|] == hc)
  {
  }

  /** A refresh that made a failing call ended on it, with that call's
      exception. */
  lemma RefusedCallIsLast(s: AlertState, input: string, st: PenaltyStatus, refuses: set<MvCall>)
    ensures var r := AutoRefreshMv(s, input, st, refuses);
      AnyRefused(r.calls, refuses) ==>
      r.error == Some(MvFailure(r.calls[|r.calls| - 1])) && r.calls[|r.calls| - 1] in refuses
  {
    var r := AutoRefreshMv(s, input, st, refuses);
    if AnyRefused(r.calls, refuses) && Get(st.home1, "time").Some? && Get(st.home2, "time").Some? {
      var hc := EdgeCalls(s.homeOn, HasAlert(Get(st.home1, "time").value, Get(st.home2, "time").value), input, MvHome);
      if !AnyRefused(hc, refuses) {
        assert Get(st.away1, "time").Some? && Get(st.away2, "time").Some?;
        var ac := EdgeCalls(s.awayOn, HasAlert(Get(st.away1, "time").value, Get(st.away2, "time").value), input, MvAway);
        assert r.calls == hc + ac;
        var i :| 0 <= i < |r.calls| && r.calls[i] in refuses;
        assert i == |hc| && r.calls[i] == ac[0];
      }
    }
  }

  // ---------------------------------------------------------------
  // Properties
  // ---------------------------------------------------------------

  /** A second refresh with unchanged times issues no call and changes
      nothing. */
  lemma RepeatIsQuiet(s: AlertState, input: string, h1: string, h2: string, a1: string, a2: string)
    ensures var s1 := AutoRefresh(s, input, h1, h2, a1, a2).0;
      AutoRefresh(s1, input, h1, h2, a1, a2) == (s1, [])
  {
  }

  /** The calls addressed to one overlay index. */
  function CallsFor(calls: seq<MvCall>, mv: int): (r: seq<MvCall>)
    ensures forall i :: 0 <= i < |r| ==> r[i].index == mv
    ensures |r| <= |calls|
  {
    if |calls| == 0 then []
    else (if calls[0].index == mv then [calls[0]] else []) + CallsFor(calls[1..], mv)
  }

  lemma {:induction false} CallsForConcat(a: seq<MvCall>, b: seq<MvCall>, mv: int)
    ensures CallsFor(a + b, mv) == CallsFor(a, mv) + CallsFor(b, mv)
  {
    if |a| > 0 {
      assert (a + b)[1..] == a[1..] + b;
      CallsForConcat(a[1..], b, mv);
    } else {
      assert a + b == b;
    }
  }

  /** The two sides do not interfere: what happens on the home overlay is
      decided by the home belief and the home times alone, and likewise for
      away. */
  lemma SidesIndependent(s: AlertState, input: string, h1: string, h2: string, a1: string, a2: string)
    ensures CallsFor(AutoRefresh(s, input, h1, h2, a1, a2).1, MvHome)
      == EdgeCalls(s.homeOn, HasAlert(h1, h2), input, MvHome)
    ensures CallsFor(AutoRefresh(s, input, h1, h2, a1, a2).1, MvAway)
      == EdgeCalls(s.awayOn, HasAlert(a1, a2), input, MvAway)
  {
    var hc := EdgeCalls(s.homeOn, HasAlert(h1, h2), input, MvHome);
    var ac := EdgeCalls(s.awayOn, HasAlert(a1, a2), input, MvAway);
    CallsForConcat(hc, ac, MvHome);
    CallsForConcat(hc, ac, MvAway);
  }

  /** On the times the scoreboard writes, a side is alerted exactly when one
      of its penalties has 1 to 5 seconds left. */
  lemma AlertOnWrittenTimes(a: nat, b: nat)
    ensures HasAlert(FormatMmss(a), FormatMmss(b)) <==> (1 <= a <= 5 || 1 <= b <= 5)
  {
    PenaltyAgreesWithStrict(FormatMmss(a));
    PenaltyAgreesWithStrict(FormatMmss(b));
  }

  /** A bare number of seconds counts as itself, so `"-3"` and `"0"` never
      alert and `"5"` does. */
  lemma AlertOnBareNumbers(a: int, b: int)
    ensures HasAlert(IntToString(a), IntToString(b)) <==> (1 <= a <= 5 || 1 <= b <= 5)
  {
    PenaltySecondsBareInteger(a);
    PenaltySecondsBareInteger(b);
  }
}
