/**
 * The confidence heuristic and the question extraction of
 * backend/services/doubt_logger.py.  The model call that answers the
 * question, the history file and the timeline log are left out: the
 * answer text is a parameter.
 */
module DoubtLogger {
  import opened Wrappers

  /** One confusion signal seen while studying, with the text it happened on. */
  datatype DoubtEvent = DoubtEvent(timestamp: real, event: string, context: Option<string>)

  const HARD_SIGNS: set<string> := {"tab_switch", "rewind"}
  const SOFT_SIGNS: set<string> := {"pause", "scroll_up"}

  const BASE_CONFIDENCE: real := 80.0
  const NO_QUESTION: string := "No valid question provided."

  /** Number of events whose kind is a hard sign. */
  function HardCount(events: seq<DoubtEvent>): nat {
    if events == [] then 0 else (if events[0].event in HARD_SIGNS then 1 else 0) + HardCount(events[1..])
  }

  /** Number of events whose kind is a soft sign. */
  function SoftCount(events: seq<DoubtEvent>): nat {
    if events == [] then 0 else (if events[0].event in SOFT_SIGNS then 1 else 0) + SoftCount(events[1..])
  }

  /** `min(len(ai_answer) / 25, 10)`, true division. */
  function LengthBonus(answer: string): (b: real)
    ensures 0.0 <= b <= 10.0
    ensures |answer| >= 250 ==> b == 10.0
  {
    var q := |answer| as real / 25.0;
    if q < 10.0 then q else 10.0
  }

  /** The confidence before clipping: base minus penalties plus the answer bonus. */
  function Raw(events: seq<DoubtEvent>, answer: string): real {
    BASE_CONFIDENCE - (HardCount(events) * 10 + SoftCount(events) * 5) as real + LengthBonus(answer)
  }

  /** `max(0, min(100, x))`. */
  function Clip(x: real): (r: real)
    ensures 0.0 <= r <= 100.0
    ensures 0.0 <= x <= 100.0 ==> r == x
  {
    if x > 100.0 then 100.0 else if x < 0.0 then 0.0 else x
  }

  /** `compute_confidence(events, ai_answer)`, without the final rounding to 2 decimals. */
  function Confidence(events: seq<DoubtEvent>, answer: string): (c: real)
    ensures 0.0 <= c <= 100.0
  {
    Clip(Raw(events, answer))
  }

  /** What one event costs: 10 for a hard sign, 5 for a soft one, nothing otherwise. */
  function Penalty(e: DoubtEvent): (p: real)
    ensures p == 10.0 || p == 5.0 || p == 0.0
  {
    if e.event in HARD_SIGNS then 10.0 else if e.event in SOFT_SIGNS then 5.0 else 0.0
  }

  lemma {:induction false} CountAppend(a: seq<DoubtEvent>, b: seq<DoubtEvent>)
    ensures HardCount(a + b) == HardCount(a) + HardCount(b)
    ensures SoftCount(a + b) == SoftCount(a) + SoftCount(b)
  {
    if a == [] {
      assert a + b == b;
    } else {
      assert (a + b)[1..] == a[1..] + b;
      CountAppend(a[1..], b);
    }
  }

  /** With no signals and no answer the confidence is the base 80. */
  lemma BaseConfidence()
    ensures Confidence([], "") == 80.0
  {
  }

  /**
   * An event anywhere in the list costs exactly its penalty before
   * clipping: 10 for `tab_switch`/`rewind`, 5 for `pause`/`scroll_up`,
   * nothing for any other kind.
   */
  lemma EventPenalty(a: seq<DoubtEvent>, e: DoubtEvent, b: seq<DoubtEvent>, answer: string)
    ensures Raw(a + [e] + b, answer) == Raw(a + b, answer) - Penalty(e)
  {
    CountAppend(a + [e], b);
    CountAppend(a, [e]);
    CountAppend(a, b);
    assert [e][1..] == [];
  }

  /** Recording one more confusion signal never raises the confidence. */
  lemma MoreSignalsNoHigher(a: seq<DoubtEvent>, e: DoubtEvent, b: seq<DoubtEvent>, answer: string)
    ensures Confidence(a + [e] + b, answer) <= Confidence(a + b, answer)
  {
    EventPenalty(a, e, b, answer);
  }

  /** A longer answer never lowers the confidence. */
  lemma LongerAnswerNoLower(events: seq<DoubtEvent>, answer: string, longer: string)
    requires |answer| <= |longer|
    ensures Confidence(events, answer) <= Confidence(events, longer)
  {
  }

  // ---------------------------------------------------------------------
  // Question extraction
  // ---------------------------------------------------------------------

  /** The event has a context that is a non-empty string. */
  predicate HasContext(e: DoubtEvent) {
    e.context.Some? && e.context.value != ""
  }

  /** `[e.context for e in events if e.context]`. */
  function Contexts(events: seq<DoubtEvent>): (r: seq<string>)
    ensures |r| <= |events|
  {
    if events == [] then []
    else (if HasContext(events[0]) then [events[0].context.value] else []) + Contexts(events[1..])
  }

  /** `ctx[-1] if ctx else "No valid question provided."`. */
  function Question(events: seq<DoubtEvent>): string {
    var ctx := Contexts(events);
    if ctx == [] then NO_QUESTION else ctx[|ctx| - 1]
  }

  lemma {:induction false} ContextsEmpty(events: seq<DoubtEvent>)
    ensures Contexts(events) == [] <==> forall i :: 0 <= i < |events| ==> !HasContext(events[i])
  {
    if events != [] {
      ContextsEmpty(events[1..]);
      assert forall i :: 1 <= i < |events| ==> events[i] == events[1..][i - 1];
    }
  }

  lemma {:induction false} ContextsAppend(a: seq<DoubtEvent>, b: seq<DoubtEvent>)
    ensures Contexts(a + b) == Contexts(a) + Contexts(b)
  {
    if a == [] {
      assert a + b == b;
    } else {
      var head := if HasContext(a[0]) then [a[0].context.value] else [];
      assert (a + b)[0] == a[0];
      assert (a + b)[1..] == a[1..] + b;
      calc {
        Contexts(a + b);
        head + Contexts(a[1..] + b);
        { ContextsAppend(a[1..], b); }
        head + (Contexts(a[1..]) + Contexts(b));
        (head + Contexts(a[1..])) + Contexts(b);
        Contexts(a) + Contexts(b);
      }
    }
  }

  /**
   * The question is the context of the last event that has a non-empty
   * one; when no event has one it is "No valid question provided.".
   */
  lemma QuestionIsLastContext(events: seq<DoubtEvent>, i: nat)
    requires i < |events| && HasContext(events[i])
    requires forall j :: i < j < |events| ==> !HasContext(events[j])
    ensures Question(events) == events[i].context.value
  {
    var tail := events[i + 1..];
    assert events == events[..i] + ([events[i]] + tail);
    ContextsAppend(events[..i], [events[i]] + tail);
    ContextsAppend([events[i]], tail);
    ContextsEmpty(tail);
    assert [events[i]][1..] == [];
  }

  lemma NoContextNoQuestion(events: seq<DoubtEvent>)
    requires forall i :: 0 <= i < |events| ==> !HasContext(events[i])
    ensures Question(events) == NO_QUESTION
  {
    ContextsEmpty(events);
  }
}
