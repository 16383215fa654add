/**
 * The focus-state rule of backend/services/focus_detect.py: the last
 * (up to) 20 activity events are averaged and a fixed threshold rule says
 * whether the user is focused; a Pomodoro break is suggested otherwise.
 */
module FocusDetect {
  import opened Text

  /** One activity sample: keystrokes per minute, mouse clicks and window switches. */
  datatype FocusEvent = FocusEvent(
    timestamp: real,
    app: string,
    isStudyApp: bool,
    keysPerMin: real,
    mouseClicks: int,
    windowChanges: int)

  /** Why the rule decided as it did: no data, or the four averages it compared. */
  datatype Reason =
    | NoEventsDetected
    | Stats(kpm: real, clicks: real, switches: real, studyRatio: real)

  datatype FocusSuggestion = FocusSuggestion(focused: bool, suggestPomodoro: bool, reason: Reason)

  /** Application names counted as study work. */
  const STUDY_APPS: set<string> :=
    {"code", "vscode", "pycharm", "word", "excel", "onenote", "pdf", "notepad", "chrome"}

  /** How many of the latest events are looked at. */
  const WINDOW: nat := 20

  /** `events[-min(20, len(events)):]`: the latest events, at most 20. */
  function Window(events: seq<FocusEvent>): (w: seq<FocusEvent>)
    ensures |w| == if |events| < WINDOW then |events| else WINDOW
  {
    if |events| < WINDOW then events else events[|events| - WINDOW..]
  }

  predicate IsStudy(e: FocusEvent) {
    e.isStudyApp || Lower(e.app) in STUDY_APPS
  }

  function Sum(s: seq<real>): real {
    if s == [] then 0.0 else s[0] + Sum(s[1..])
  }

  /** `statistics.mean`. */
  function Mean(s: seq<real>): real
    requires s != []
  {
    Sum(s) / |s| as real
  }

  function Kpms(w: seq<FocusEvent>): (r: seq<real>)
    ensures |r| == |w| && forall i :: 0 <= i < |w| ==> r[i] == w[i].keysPerMin
  {
    seq(|w|, i requires 0 <= i < |w| => w[i].keysPerMin)
  }

  function Clicks(w: seq<FocusEvent>): (r: seq<real>)
    ensures |r| == |w| && forall i :: 0 <= i < |w| ==> r[i] == w[i].mouseClicks as real
  {
    seq(|w|, i requires 0 <= i < |w| => w[i].mouseClicks as real)
  }

  function Switches(w: seq<FocusEvent>): (r: seq<real>)
    ensures |r| == |w| && forall i :: 0 <= i < |w| ==> r[i] == w[i].windowChanges as real
  {
    seq(|w|, i requires 0 <= i < |w| => w[i].windowChanges as real)
  }

  /** Number of study events. */
  function StudyCount(w: seq<FocusEvent>): (n: nat)
    ensures n <= |w|
  {
    if w == [] then 0 else (if IsStudy(w[0]) then 1 else 0) + StudyCount(w[1..])
  }

  /** Share of study events, between 0 and 1. */
  function StudyRatio(w: seq<FocusEvent>): (r: real)
    requires w != []
    ensures 0.0 <= r <= 1.0
  {
    var x := StudyCount(w) as real;
    var n := |w| as real;
    DivAtLeast(x, n, 0.0);
    DivAtMost(x, n, 1.0);
    x / n
  }

  /** The threshold rule: typing or clicking enough, at most one switch, 70% study. */
  predicate Focused(kpm: real, clicks: real, switches: real, ratio: real) {
    (kpm >= 80.0 || clicks >= 5.0) && switches <= 1.0 && ratio >= 0.7
  }

  /** `suggest(events)`; the timeline log it writes is left out. */
  function Suggest(events: seq<FocusEvent>): (r: FocusSuggestion)
    ensures r.suggestPomodoro == !r.focused
    ensures events == [] ==> r == FocusSuggestion(false, true, NoEventsDetected)
    ensures events != [] ==> r.reason.Stats? && 0.0 <= r.reason.studyRatio <= 1.0
  {
    if events == [] then FocusSuggestion(false, true, NoEventsDetected)
    else
      var w := Window(events);
      var kpm := Mean(Kpms(w));
      var clicks := Mean(Clicks(w));
      var switches := Mean(Switches(w));
      var ratio := StudyRatio(w);
      var focused := Focused(kpm, clicks, switches, ratio);
      FocusSuggestion(focused, !focused, Stats(kpm, clicks, switches, ratio))
  }

  // ---------------------------------------------------------------------
  // Properties
  // ---------------------------------------------------------------------

  /** Events older than the latest 20 never change the suggestion. */
  lemma OnlyWindowMatters(older: seq<FocusEvent>, events: seq<FocusEvent>)
    requires |events| >= WINDOW
    ensures Suggest(older + events) == Suggest(events)
  {
    var all := older + events;
    assert Window(all) == Window(events) by {
      assert all[|all| - WINDOW..] == events[|events| - WINDOW..];
    }
  }

  /** The suggestion for a long history is the one for its latest 20 events. */
  lemma SuggestWindow(events: seq<FocusEvent>)
    ensures Suggest(events) == Suggest(Window(events))
  {
    if |events| >= WINDOW {
      assert Window(Window(events)) == Window(events);
    }
  }

  lemma {:induction false} SumBelow(s: seq<real>, c: real)
    requires s != [] && forall i :: 0 <= i < |s| ==> s[i] < c
    ensures Sum(s) < c * |s| as real
  {
    if |s| > 1 {
      SumBelow(s[1..], c);
    }
  }

  lemma {:induction false} SumAbove(s: seq<real>, c: real)
    requires s != [] && forall i :: 0 <= i < |s| ==> s[i] > c
    ensures Sum(s) > c * |s| as real
  {
    if |s| > 1 {
      SumAbove(s[1..], c);
    }
  }

  lemma {:induction false} SumAtLeast(s: seq<real>, c: real)
    requires forall i :: 0 <= i < |s| ==> s[i] >= c
    ensures Sum(s) >= c * |s| as real
  {
    if s != [] {
      SumAtLeast(s[1..], c);
    }
  }

  lemma {:induction false} SumAtMost(s: seq<real>, c: real)
    requires forall i :: 0 <= i < |s| ==> s[i] <= c
    ensures Sum(s) <= c * |s| as real
  {
    if s != [] {
      SumAtMost(s[1..], c);
    }
  }

  lemma DivAtLeast(x: real, n: real, c: real)
    requires n > 0.0
    ensures x / n >= c <==> x >= c * n
  {
    assert x == (x / n) * n;
    if x / n >= c {
      assert (x / n) * n >= c * n;
    } else {
      assert (x / n) * n < c * n;
    }
  }

  lemma DivAtMost(x: real, n: real, c: real)
    requires n > 0.0
    ensures x / n <= c <==> x <= c * n
  {
    assert x == (x / n) * n;
    if x / n <= c {
      assert (x / n) * n <= c * n;
    } else {
      assert (x / n) * n > c * n;
    }
  }

  /**
   * The rule without divisions: with `n` recent events, the user is
   * focused exactly when their keystrokes total at least 80n or their
   * clicks at least 5n, their window switches total at most n, and at
   * least 7 in 10 of them are study events.
   */
  lemma FocusedIff(events: seq<FocusEvent>)
    requires events != []
    ensures var w := Window(events);
      var n := |w| as real;
      Suggest(events).focused
      <==> (Sum(Kpms(w)) >= 80.0 * n || Sum(Clicks(w)) >= 5.0 * n)
           && Sum(Switches(w)) <= 1.0 * n
           && 10 * StudyCount(w) >= 7 * |w|
  {
    var w := Window(events);
    var n := |w| as real;
    var x := StudyCount(w) as real;
    assert Suggest(events).focused
      == Focused(Sum(Kpms(w)) / n, Sum(Clicks(w)) / n, Sum(Switches(w)) / n, StudyRatio(w));
    assert StudyRatio(w) == x / n;
    FocusedDivFree(Sum(Kpms(w)), Sum(Clicks(w)), Sum(Switches(w)), x, n);
    assert 10 * StudyCount(w) >= 7 * |w| <==> x >= 0.7 * n;
  }

  /** The threshold rule on totals instead of means. */
  lemma FocusedDivFree(kpm: real, clicks: real, switches: real, study: real, n: real)
    requires n > 0.0
    ensures Focused(kpm / n, clicks / n, switches / n, study / n)
      <==> (kpm >= 80.0 * n || clicks >= 5.0 * n) && switches <= 1.0 * n && study >= 0.7 * n
  {
    DivAtLeast(kpm, n, 80.0);
    DivAtLeast(clicks, n, 5.0);
    DivAtMost(switches, n, 1.0);
    DivAtLeast(study, n, 0.7);
  }

  /**
   * A focused verdict is backed by the recent events: one of them typed at
   * least 80 keys a minute or clicked at least 5 times, one switched
   * windows at most once, and at least 70% of them were study events.
   */
  lemma FocusedWitnesses(events: seq<FocusEvent>)
    requires Suggest(events).focused
    ensures var w := Window(events);
      w != []
      && ((exists i :: 0 <= i < |w| && w[i].keysPerMin >= 80.0)
          || (exists i :: 0 <= i < |w| && w[i].mouseClicks >= 5))
      && (exists i :: 0 <= i < |w| && w[i].windowChanges <= 1)
      && 10 * StudyCount(w) >= 7 * |w|
  {
    var w := Window(events);
    FocusedIff(events);
    if Sum(Kpms(w)) >= 80.0 * |w| as real {
      if forall i :: 0 <= i < |w| ==> Kpms(w)[i] < 80.0 {
        SumBelow(Kpms(w), 80.0);
        assert false;
      }
    } else {
      if forall i :: 0 <= i < |w| ==> Clicks(w)[i] < 5.0 {
        SumBelow(Clicks(w), 5.0);
        assert false;
      }
    }
    if forall i :: 0 <= i < |w| ==> Switches(w)[i] > 1.0 {
      SumAbove(Switches(w), 1.0);
      assert false;
    }
  }

  /**
   * When every recent event is a study event with at least 80 keys a
   * minute and at most one window switch, the user is focused.
   */
  lemma SteadyStudyIsFocused(events: seq<FocusEvent>)
    requires events != []
    requires forall e :: e in Window(events) ==>
      IsStudy(e) && e.keysPerMin >= 80.0 && e.windowChanges <= 1
    ensures Suggest(events).focused && !Suggest(events).suggestPomodoro
  {
    var w := Window(events);
    assert forall i :: 0 <= i < |w| ==> w[i] in w;
    SumAtLeast(Kpms(w), 80.0);
    SumAtMost(Switches(w), 1.0);
    AllStudy(w);
    FocusedIff(events);
  }

  lemma {:induction false} AllStudy(w: seq<FocusEvent>)
    requires forall e :: e in w ==> IsStudy(e)
    ensures StudyCount(w) == |w|
  {
    if w != [] {
      assert forall e :: e in w[1..] ==> e in w;
      AllStudy(w[1..]);
    }
  }
}
