/**
 * The list handling of the AutoNote route (backend/routers/autonote.py):
 * `flatten_list`, the empty-input check of `summarize_content`, and the
 * fallback that turns regex matches over a non-JSON model reply into a
 * summary, at most 5 distinct highlights and at most 7 distinct bullets.
 * The model call and the regular expressions themselves are left out:
 * their results are parameters.
 */
module AutoNote {
  import opened Wrappers
  import opened Text

  /** A parsed JSON value. */
  datatype Json =
    | JNull
    | JBool(b: bool)
    | JNum(n: real)
    | JStr(s: string)
    | JArr(items: seq<Json>)
    | JObj(fields: map<string, Json>)

  const MAX_HIGHLIGHTS: nat := 5
  const MAX_BULLETS: nat := 7
  const FALLBACK_SUMMARY: string := "Summary not detected, fallback applied."

  /**
   * Python's `str(v)`: a string is itself; every other value is rendered
   * by `repr`, which stands for Python's own formatting.
   */
  function Str(v: Json, repr: Json -> string): string {
    if v.JStr? then v.s else repr(v)
  }

  /** One list item: a dict's "description" when it has one, else the item itself, as text. */
  function ItemText(item: Json, repr: Json -> string): string {
    if item.JObj? && "description" in item.fields then Str(item.fields["description"], repr)
    else Str(item, repr)
  }

  /** `flatten_list(items)`. */
  function FlattenList(items: Json, repr: Json -> string): (r: seq<string>)
    ensures !items.JArr? ==> r == []
    ensures items.JArr? ==> |r| == |items.items|
  {
    if items.JArr? then seq(|items.items|, i requires 0 <= i < |items.items| => ItemText(items.items[i], repr))
    else []
  }

  /** Item by item: a string item gives itself, a dict with "description" gives that field. */
  lemma FlattenListItems(items: seq<Json>, repr: Json -> string, i: nat)
    requires i < |items|
    ensures var r := FlattenList(JArr(items), repr);
      i < |r|
      && (items[i].JStr? ==> r[i] == items[i].s)
      && (items[i].JObj? && "description" in items[i].fields ==>
            r[i] == Str(items[i].fields["description"], repr))
      && (items[i].JObj? && "description" !in items[i].fields ==> r[i] == repr(items[i]))
  {
  }

  /** Lists of plain strings come out unchanged. */
  lemma FlattenStrings(items: seq<Json>, repr: Json -> string)
    requires forall i :: 0 <= i < |items| ==> items[i].JStr?
    ensures FlattenList(JArr(items), repr) == seq(|items|, i requires 0 <= i < |items| => items[i].s)
  {
  }

  /** `if not text or not text.strip(): raise HTTPException(400)`. */
  function CheckInput(text: string): (r: Result<string>)
    ensures r.HttpError? <==> forall i :: 0 <= i < |text| ==> IsSpace(text[i])
    ensures r.HttpError? ==> r.status == 400
    ensures r.Ok? ==> r.value == text
  {
    StripEmptyIff(text);
    if text == [] || Strip(text) == [] then HttpError(400) else Ok(text)
  }

  // ---------------------------------------------------------------------
  // De-duplication: `list(dict.fromkeys(xs))`
  // ---------------------------------------------------------------------

  /** No element occurs twice. */
  predicate Distinct(s: seq<string>) {
    forall i, j :: 0 <= i < j < |s| ==> s[i] != s[j]
  }

  /** Position of the first occurrence of `x`. */
  function FirstIndex(s: seq<string>, x: string): (k: nat)
    requires x in s
    ensures k < |s| && s[k] == x && forall j :: 0 <= j < k ==> s[j] != x
  {
    if s[0] == x then 0 else 1 + FirstIndex(s[1..], x)
  }

  /** Keeps the first occurrence of every element, in order. */
  function Dedup(s: seq<string>): (r: seq<string>)
    ensures Distinct(r)
    ensures forall x :: x in r <==> x in s
    ensures |r| <= |s|
  {
    if s == [] then []
    else
      var n := |s| - 1;
      var d := Dedup(s[..n]);
      assert s == s[..n] + [s[n]];
      if s[n] in d then d else d + [s[n]]
  }

  lemma FirstIndexPrefix(s: seq<string>, n: nat, x: string)
    requires n <= |s| && x in s[..n]
    ensures FirstIndex(s, x) == FirstIndex(s[..n], x)
  {
    var k := FirstIndex(s[..n], x);
    var m := FirstIndex(s, x);
    assert s[k] == x;
    assert m <= k;
    assert s[..n][m] == x;
  }

  lemma FirstIndexLast(s: seq<string>)
    requires s != [] && s[|s| - 1] !in s[..|s| - 1]
    ensures FirstIndex(s, s[|s| - 1]) == |s| - 1
  {
    var n := |s| - 1;
    assert forall j :: 0 <= j < n ==> s[j] != s[n] by {
      forall j | 0 <= j < n
        ensures s[j] != s[n]
      {
        assert s[j] == s[..n][j];
      }
    }
  }

  /** The elements of `r` come from `s`, in the order of their first occurrence in `s`. */
  predicate FirstOrder(s: seq<string>, r: seq<string>) {
    (forall x :: x in r ==> x in s)
    && forall i, j :: 0 <= i < j < |r| ==> FirstIndex(s, r[i]) < FirstIndex(s, r[j])
  }

  /**
   * `dict.fromkeys` keeps the elements in the order of their first
   * occurrence: with the two facts on `Dedup`'s contract, this pins its
   * result down.
   */
  lemma {:induction false} DedupOrder(s: seq<string>)
    ensures FirstOrder(s, Dedup(s))
  {
    if s != [] {
      var n := |s| - 1;
      var d := Dedup(s[..n]);
      DedupOrder(s[..n]);
      var r := Dedup(s);
      assert FirstOrder(s[..n], d);
      forall i, j | 0 <= i < j < |r|
        ensures FirstIndex(s, r[i]) < FirstIndex(s, r[j])
      {
        assert i < |d| && r[i] == d[i] && d[i] in d;
        FirstIndexPrefix(s, n, r[i]);
        if j < |d| {
          assert r[j] == d[j] && d[j] in d;
          FirstIndexPrefix(s, n, r[j]);
          assert FirstIndex(s[..n], d[i]) < FirstIndex(s[..n], d[j]);
        } else {
          assert r == d + [s[n]];
          assert r[j] == s[n];
          FirstIndexLast(s);
        }
      }
    }
  }

  /** De-duplicating twice changes nothing. */
  lemma {:induction false} DedupDistinct(s: seq<string>)
    requires Distinct(s)
    ensures Dedup(s) == s
  {
    if s != [] {
      var n := |s| - 1;
      DedupDistinct(s[..n]);
      assert s[n] !in s[..n];
      assert s == s[..n] + [s[n]];
    }
  }

  /** `xs[:n]`. */
  function Cap(s: seq<string>, n: nat): (r: seq<string>)
    ensures |r| <= n && |r| <= |s|
    ensures |s| <= n ==> r == s
    ensures forall i :: 0 <= i < |r| ==> r[i] == s[i]
  {
    if |s| <= n then s else s[..n]
  }

  /** `[x.strip() for x in xs]`. */
  function StripAll(s: seq<string>): (r: seq<string>)
    ensures |r| == |s| && forall i :: 0 <= i < |s| ==> r[i] == Strip(s[i])
  {
    seq(|s|, i requires 0 <= i < |s| => Strip(s[i]))
  }

  /** What the fallback returns. */
  datatype Note = Note(summary: string, highlights: seq<string>, bullets: seq<string>)

  /**
   * The fallback of `summarize_content`: `summaryMatch` is the text the
   * summary pattern captured (if it matched), `highlightMatches` and
   * `bulletMatches` what the list patterns found, in order.
   */
  function Fallback(aiOutput: string, summaryMatch: Option<string>,
                    highlightMatches: seq<string>, bulletMatches: seq<string>): (r: Note)
    ensures r.summary != []
    ensures |r.highlights| <= MAX_HIGHLIGHTS && Distinct(r.highlights)
    ensures |r.bullets| <= MAX_BULLETS && Distinct(r.bullets)
  {
    var summary := match summaryMatch
      case Some(m) => Strip(m)
      case None => if |aiOutput| <= 400 then aiOutput else aiOutput[..400];
    var highlights := Cap(Dedup(StripAll(highlightMatches)), MAX_HIGHLIGHTS);
    var bullets := Cap(Dedup(StripAll(bulletMatches)), MAX_BULLETS);
    Note(if summary == [] then FALLBACK_SUMMARY else summary, highlights, bullets)
  }

  /** The first `n` distinct elements of `s`, in the order of their first occurrence. */
  lemma CapDedup(s: seq<string>, n: nat)
    ensures |Dedup(s)| <= n ==> forall x :: x in s ==> x in Cap(Dedup(s), n)
    ensures FirstOrder(s, Cap(Dedup(s), n))
  {
    var d := Dedup(s);
    var r := Cap(d, n);
    DedupOrder(s);
    forall x | x in r
      ensures x in s
    {
      var i :| 0 <= i < |r| && r[i] == x;
      assert d[i] in d;
    }
  }

  /**
   * Each fallback highlight is a stripped highlight match, every distinct
   * stripped match is kept while at most 5 are distinct, and the
   * highlights come in the order of their first match; bullets likewise
   * with 7.
   */
  lemma FallbackLists(aiOutput: string, summaryMatch: Option<string>,
                      highlightMatches: seq<string>, bulletMatches: seq<string>)
    ensures var r := Fallback(aiOutput, summaryMatch, highlightMatches, bulletMatches);
      var hs := StripAll(highlightMatches);
      var bs := StripAll(bulletMatches);
      FirstOrder(hs, r.highlights)
      && (|Dedup(hs)| <= MAX_HIGHLIGHTS ==> forall h :: h in hs ==> h in r.highlights)
      && |r.highlights| == (if |Dedup(hs)| < MAX_HIGHLIGHTS then |Dedup(hs)| else MAX_HIGHLIGHTS)
      && FirstOrder(bs, r.bullets)
      && (|Dedup(bs)| <= MAX_BULLETS ==> forall b :: b in bs ==> b in r.bullets)
      && |r.bullets| == (if |Dedup(bs)| < MAX_BULLETS then |Dedup(bs)| else MAX_BULLETS)
  {
    CapDedup(StripAll(highlightMatches), MAX_HIGHLIGHTS);
    CapDedup(StripAll(bulletMatches), MAX_BULLETS);
  }

  /** The summary is the captured text, stripped, or the first 400 characters of the reply; never blank. */
  lemma FallbackSummary(aiOutput: string, summaryMatch: Option<string>,
                        highlightMatches: seq<string>, bulletMatches: seq<string>)
    ensures var r := Fallback(aiOutput, summaryMatch, highlightMatches, bulletMatches);
      (summaryMatch.Some? && Strip(summaryMatch.value) != [] ==> r.summary == Strip(summaryMatch.value))
      && (summaryMatch.None? && aiOutput != [] ==>
            IsPrefix(r.summary, aiOutput) && |r.summary| == (if |aiOutput| < 400 then |aiOutput| else 400))
      && ((summaryMatch.Some? && Strip(summaryMatch.value) == []) || (summaryMatch.None? && aiOutput == [])
          ==> r.summary == FALLBACK_SUMMARY)
  {
  }
}
