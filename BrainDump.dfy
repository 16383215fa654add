/**
 * The keyword rule of the brain-dump route (backend/routers/braindump.py,
 * `save_brain_dump`): the stripped, lower-cased text is checked for study
 * words, then workload words, then stress words, and the first group that
 * occurs picks the advice; otherwise one of three generic lines is drawn.
 */
module BrainDump {
  import opened Wrappers
  import opened Text

  datatype Category = Study | Workload | Rest | Generic

  const STUDY_WORDS: seq<string> := ["study", "exam", "test"]
  const WORK_WORDS: seq<string> := ["project", "work", "deadline"]
  const REST_WORDS: seq<string> := ["tired", "anxious", "overwhelmed"]

  const STUDY_TEXT: string :=
    "\U{1f4da} You seem worried about your studies. Try organizing your topics into smaller chunks "
    + "and review them one by one. Short, focused sessions work better than long cramming."
  const WORK_TEXT: string :=
    "\U{1f5c2} You\U{2019}re managing multiple responsibilities. List your pending tasks, set clear priorities, "
    + "and focus on one task at a time to reduce stress."
  const REST_TEXT: string :=
    "\U{1f486}\U{200d}\U{2640}\U{fe0f} It sounds like you\U{2019}re overwhelmed. Take short breaks and give yourself time to recover. "
    + "Remember, productivity improves when you rest and reset."
  const GENERIC_TEXTS: seq<string> := [
    "\U{1f9e0} It looks like your thoughts are scattered. Try writing down 3 key priorities to regain focus.",
    "\U{2728} Focus on one clear goal right now. Avoid multitasking and reward yourself after completing it.",
    "\U{1f4cb} Create a short to-do list \U{2014} start with something easy to build momentum."
  ]

  /** `any(word in text for word in words)`. */
  predicate AnyIn(words: seq<string>, text: string) {
    exists w :: w in words && Contains(text, w)
  }

  /** `req.text.strip().lower()`. */
  function Normalize(text: string): string {
    Lower(Strip(text))
  }

  /** The `if`/`elif` chain on the normalised text. */
  function Route(low: string): Result<Category> {
    if low == [] then HttpError(400)
    else if AnyIn(STUDY_WORDS, low) then Ok(Study)
    else if AnyIn(WORK_WORDS, low) then Ok(Workload)
    else if AnyIn(REST_WORDS, low) then Ok(Rest)
    else Ok(Generic)
  }

  /** The advice group the route picks, or the HTTP 400 it raises for blank text. */
  function Classify(text: string): (r: Result<Category>)
    ensures r.HttpError? <==> Strip(text) == []
    ensures r.HttpError? ==> r.status == 400
  {
    var low := Normalize(text);
    assert |low| == |Strip(text)|;
    assert low == [] <==> Strip(text) == [];
    Route(low)
  }

  /**
   * The `organized_text` of the response; `pick` stands for the index
   * `random.choice` draws among the generic lines.
   */
  function Organize(text: string, pick: nat): (r: Result<string>)
    requires pick < |GENERIC_TEXTS|
    ensures r.HttpError? <==> Classify(text).HttpError?
    ensures Classify(text) == Ok(Generic) ==> r.Ok? && r.value in GENERIC_TEXTS
  {
    match Classify(text)
    case HttpError(status) => HttpError(status)
    case Ok(c) =>
      Ok(match c
         case Study => STUDY_TEXT
         case Workload => WORK_TEXT
         case Rest => REST_TEXT
         case Generic => GENERIC_TEXTS[pick])
  }

  // ---------------------------------------------------------------------
  // Properties
  // ---------------------------------------------------------------------

  /** Blank input, and only blank input, is refused with HTTP 400. */
  lemma BlankRefused(text: string)
    ensures Classify(text) == HttpError(400) <==> forall i :: 0 <= i < |text| ==> IsSpace(text[i])
  {
    StripEmptyIff(text);
  }

  /** Upper and lower case make no difference to the advice. */
  lemma CaseInsensitive(text: string)
    ensures Classify(Lower(text)) == Classify(text)
  {
    StripLowerCommute(text);
    LowerIdempotent(Strip(text));
    assert Normalize(Lower(text)) == Normalize(text);
  }

  /** A keyword: lower-case letters only. */
  predicate LowerWord(w: string) {
    w != [] && forall i :: 0 <= i < |w| ==> 'a' <= w[i] <= 'z'
  }

  lemma KeywordsLower()
    ensures forall w :: w in STUDY_WORDS ==> LowerWord(w)
    ensures forall w :: w in WORK_WORDS ==> LowerWord(w)
    ensures forall w :: w in REST_WORDS ==> LowerWord(w)
  {
  }

  /** A keyword found anywhere in the text, in any case, is found in the normalised text. */
  lemma Mentioned(a: string, w: string, b: string)
    requires LowerWord(w)
    ensures Contains(Normalize(a + w + b), w) && Normalize(a + w + b) != []
  {
    var s := a + w + b;
    assert s[|a|..|a| + |w|] == w;
    StripKeeps(s, w, |a|);
    LowerContains(Strip(s), w);
    assert Lower(w) == w;
  }

  /**
   * A study word anywhere in the text gives the study advice, whatever
   * other keywords the text holds.
   */
  lemma StudyWordWins(a: string, w: string, b: string)
    requires w in STUDY_WORDS
    ensures Classify(a + w + b) == Ok(Study)
  {
    KeywordsLower();
    Mentioned(a, w, b);
  }

  /** Without a study word, a workload word anywhere gives the workload advice. */
  lemma WorkWordNext(a: string, w: string, b: string)
    requires w in WORK_WORDS
    requires !AnyIn(STUDY_WORDS, Normalize(a + w + b))
    ensures Classify(a + w + b) == Ok(Workload)
  {
    KeywordsLower();
    Mentioned(a, w, b);
  }

  /** Without study or workload words, a stress word anywhere gives the rest advice. */
  lemma RestWordLast(a: string, w: string, b: string)
    requires w in REST_WORDS
    requires !AnyIn(STUDY_WORDS, Normalize(a + w + b)) && !AnyIn(WORK_WORDS, Normalize(a + w + b))
    ensures Classify(a + w + b) == Ok(Rest)
  {
    KeywordsLower();
    Mentioned(a, w, b);
  }

  /** The generic lines come only for text that mentions no keyword of any group, in any case. */
  lemma GenericOnlyWithoutKeywords(a: string, w: string, b: string)
    requires w in STUDY_WORDS || w in WORK_WORDS || w in REST_WORDS
    ensures Classify(a + w + b) != Ok(Generic)
  {
    KeywordsLower();
    Mentioned(a, w, b);
    var low := Normalize(a + w + b);
    if w in STUDY_WORDS {
      assert AnyIn(STUDY_WORDS, low);
    } else if w in WORK_WORDS {
      assert AnyIn(WORK_WORDS, low);
    } else {
      assert AnyIn(REST_WORDS, low);
    }
  }
}
