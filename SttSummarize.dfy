/**
 * The text helpers of the lecture-transcript summariser
 * (backend/services/stt_summarize.py): naive bullet points cut at sentence
 * ends, and the emphasis keywords that occur in the text.
 */
module SttSummarize {
  import opened Text

  /** The default `max_points` of `simple_bullets`. */
  const DEFAULT_MAX_POINTS: int := 8

  /** Longest fragment kept whole in a bullet. */
  const BULLET_WIDTH: nat := 180

  // ---------------------------------------------------------------------
  // simple_bullets
  // ---------------------------------------------------------------------

  /** The stripped pieces that are not empty, in order. */
  function Fragments(pieces: seq<string>): (r: seq<string>)
    ensures |r| <= |pieces|
  {
    if pieces == [] then []
    else (if Strip(pieces[0]) != "" then [Strip(pieces[0])] else []) + Fragments(pieces[1..])
  }

  /** `[p.strip() for p in text.replace("\n", " ").split(".") if p.strip()]`. */
  function Parts(text: string): seq<string> {
    Fragments(Split(ReplaceChar(text, '\n', ' '), '.'))
  }

  /** A fragment as a bullet: whole up to 180 characters, else its first 180 and "...". */
  function Bullet(p: string): string {
    if |p| > BULLET_WIDTH then p[..BULLET_WIDTH] + "..." else p
  }

  /** The bullets of the fragments longer than 10 characters, in order. */
  function Candidates(parts: seq<string>): seq<string> {
    if parts == [] then []
    else (if |parts[0]| > 10 then [Bullet(parts[0])] else []) + Candidates(parts[1..])
  }

  /** The first `n` elements, none when `n` is not positive. */
  function Take(s: seq<string>, n: int): (r: seq<string>)
    ensures |r| <= |s| && (n <= 0 ==> r == [])
  {
    if n <= 0 then [] else if n >= |s| then s else s[..n]
  }

  /** What `simple_bullets(text, max_points)` returns. */
  function Bullets(text: string, maxPoints: int): seq<string> {
    Take(Candidates(Parts(text)), maxPoints)
  }

  lemma {:induction false} CandidatesAppend(a: seq<string>, b: seq<string>)
    ensures Candidates(a + b) == Candidates(a) + Candidates(b)
  {
    if a == [] {
      assert a + b == b;
    } else {
      assert (a + b)[0] == a[0];
      assert (a + b)[1..] == a[1..] + b;
      CandidatesAppend(a[1..], b);
    }
  }

  /** Python's `p[:180] + ("..." if len(p) > 180 else "")` is `Bullet(p)`. */
  lemma BulletSlice(p: string)
    ensures p[..if |p| < BULLET_WIDTH then |p| else BULLET_WIDTH] + (if |p| > BULLET_WIDTH then "..." else "") == Bullet(p)
  {
    if |p| <= BULLET_WIDTH {
      assert p[..|p|] + "" == p;
    }
  }

  lemma CandidatesStep(parts: seq<string>, i: nat)
    requires i < |parts|
    ensures Candidates(parts[..i + 1])
         == Candidates(parts[..i]) + (if |parts[i]| > 10 then [Bullet(parts[i])] else [])
  {
    assert parts[..i + 1] == parts[..i] + [parts[i]];
    CandidatesAppend(parts[..i], [parts[i]]);
  }

  /** Stopping once `n` elements are collected takes the first `n` of the whole sequence. */
  lemma TakeStop(a: seq<string>, b: seq<string>, n: int)
    requires |a| <= (if n > 0 then n else 0)
    requires b != [] ==> |a| >= n
    ensures a == Take(a + b, n)
  {
    if b == [] {
      assert a + b == a;
    } else if n > 0 {
      assert (a + b)[..n] == a;
    }
  }

  /**
   * `simple_bullets`: walks the fragments, stops once `max_points`
   * bullets are collected, and keeps the long fragments as bullets.
   */
  method SimpleBullets(text: string, maxPoints: int) returns (bullets: seq<string>)
    ensures bullets == Bullets(text, maxPoints)
  {
    var parts := Parts(text);
    bullets := [];
    var i := 0;
    while i < |parts|
      invariant 0 <= i <= |parts|
      invariant bullets == Candidates(parts[..i])
      invariant |bullets| <= if maxPoints > 0 then maxPoints else 0
    {
      if |bullets| >= maxPoints {
        break;
      }
      var p := parts[i];
      BulletsStep(parts, i, bullets);
      if |p| > 10 {
        bullets := bullets + [p[..if |p| < BULLET_WIDTH then |p| else BULLET_WIDTH] + (if |p| > BULLET_WIDTH then "..." else "")];
      }
      i := i + 1;
    }
    BulletsStop(parts, i, bullets, maxPoints);
  }

  /** One turn of the loop in `SimpleBullets` extends the bullets of the fragments seen so far. */
  lemma BulletsStep(parts: seq<string>, i: nat, bullets: seq<string>)
    requires i < |parts| && bullets == Candidates(parts[..i])
    ensures var p := parts[i];
      (if |p| > 10
       then bullets + [p[..if |p| < BULLET_WIDTH then |p| else BULLET_WIDTH] + (if |p| > BULLET_WIDTH then "..." else "")]
       else bullets)
      == Candidates(parts[..i + 1])
  {
    CandidatesStep(parts, i);
    BulletSlice(parts[i]);
  }

  /** When the loop in `SimpleBullets` ends, by `break` or at the last fragment, it holds the first `max_points` bullets. */
  lemma BulletsStop(parts: seq<string>, i: nat, bullets: seq<string>, maxPoints: int)
    requires i <= |parts| && bullets == Candidates(parts[..i])
    requires |bullets| <= (if maxPoints > 0 then maxPoints else 0)
    requires i < |parts| ==> |bullets| >= maxPoints
    ensures bullets == Take(Candidates(parts), maxPoints)
  {
    assert parts == parts[..i] + parts[i..];
    CandidatesAppend(parts[..i], parts[i..]);
    TakeStop(bullets, Candidates(parts[i..]), maxPoints);
  }

  /** A fragment as `Parts` keeps it: non-empty, stripped, free of '.', made of the text's characters. */
  predicate Clean(p: string, text: string) {
    p != "" && !IsSpace(p[0]) && !IsSpace(p[|p| - 1])
    && forall c :: c in p ==> c in text && c != '.'
  }

  /** A piece of the split: free of '.', made of the text's characters. */
  predicate FromText(piece: string, text: string) {
    forall c :: c in piece ==> c in text && c != '.'
  }

  lemma StripClean(piece: string, text: string)
    requires FromText(piece, text) && Strip(piece) != ""
    ensures Clean(Strip(piece), text)
  {
    StripChars(piece);
    StripShape(piece);
    var r := Strip(piece);
    forall c | c in r
      ensures c in text && c != '.'
    {
      var k :| 0 <= k < |r| && r[k] == c;
    }
  }

  lemma {:induction false} FragmentsFacts(pieces: seq<string>, text: string)
    requires forall k :: 0 <= k < |pieces| ==> FromText(pieces[k], text)
    ensures forall p :: p in Fragments(pieces) ==> Clean(p, text)
  {
    if pieces != [] {
      FragmentsFacts(pieces[1..], text);
      if Strip(pieces[0]) != "" {
        StripClean(pieces[0], text);
      }
    }
  }

  /** The fragments of a text: non-empty, stripped, and without '.' or newline. */
  lemma PartsFacts(text: string)
    ensures forall k :: 0 <= k < |Parts(text)| ==>
      var p := Parts(text)[k];
      p != "" && !IsSpace(p[0]) && !IsSpace(p[|p| - 1]) && '.' !in p && '\n' !in p
  {
    var t := ReplaceChar(text, '\n', ' ');
    var pieces := Split(t, '.');
    forall k | 0 <= k < |pieces|
      ensures FromText(pieces[k], t)
    {
      forall c | c in pieces[k]
        ensures c in t && c != '.'
      {
        var i :| 0 <= i < |pieces[k]| && pieces[k][i] == c;
      }
    }
    FragmentsFacts(pieces, t);
    assert '\n' !in t;
    forall k | 0 <= k < |Parts(text)|
      ensures Clean(Parts(text)[k], t)
    {
      assert Parts(text)[k] in Fragments(pieces);
    }
  }

  /**
   * The bullets of `simple_bullets`: at most `max_points` of them (none
   * when it is not positive); each one is a fragment longer than 10
   * characters, cut to its first 180 characters plus "..." when longer,
   * so it holds between 11 and 183 characters and no newline.
   */
  lemma {:induction false} CandidatesFacts(parts: seq<string>)
    requires forall k :: 0 <= k < |parts| ==> '\n' !in parts[k]
    ensures forall j :: 0 <= j < |Candidates(parts)| ==>
      var b := Candidates(parts)[j];
      10 < |b| <= BULLET_WIDTH + 3 && '\n' !in b
      && exists k :: 0 <= k < |parts| && |parts[k]| > 10 && b == Bullet(parts[k])
  {
    if parts != [] {
      var rest := Candidates(parts[1..]);
      CandidatesFacts(parts[1..]);
      var head := if |parts[0]| > 10 then [Bullet(parts[0])] else [];
      var r := head + rest;
      assert Candidates(parts) == r;
      forall j | 0 <= j < |r|
        ensures 10 < |r[j]| <= BULLET_WIDTH + 3 && '\n' !in r[j]
        ensures exists k :: 0 <= k < |parts| && |parts[k]| > 10 && r[j] == Bullet(parts[k])
      {
        if j < |head| {
          var p := parts[0];
          if |p| > BULLET_WIDTH {
            assert '\n' !in p[..BULLET_WIDTH];
          }
        } else {
          assert r[j] == rest[j - |head|];
          var k :| 0 <= k < |parts[1..]| && |parts[1..][k]| > 10 && rest[j - |head|] == Bullet(parts[1..][k]);
          assert parts[k + 1] == parts[1..][k];
        }
      }
    }
  }

  lemma BulletsFacts(text: string, maxPoints: int)
    ensures var r := Bullets(text, maxPoints);
      |r| <= (if maxPoints > 0 then maxPoints else 0)
      && forall j :: 0 <= j < |r| ==>
        10 < |r[j]| <= BULLET_WIDTH + 3 && '\n' !in r[j]
        && exists k :: 0 <= k < |Parts(text)| && |Parts(text)[k]| > 10 && r[j] == Bullet(Parts(text)[k])
  {
    var parts := Parts(text);
    assert forall k :: 0 <= k < |parts| ==> '\n' !in parts[k] by {
      PartsFacts(text);
    }
    CandidatesFacts(parts);
    var c := Candidates(parts);
    var r := Bullets(text, maxPoints);
    assert r == Take(c, maxPoints);
    forall j | 0 <= j < |r|
      ensures 10 < |r[j]| <= BULLET_WIDTH + 3 && '\n' !in r[j]
      ensures exists k :: 0 <= k < |parts| && |parts[k]| > 10 && r[j] == Bullet(parts[k])
    {
      assert r[j] == c[j];
    }
  }

  // ---------------------------------------------------------------------
  // detect_emphasis
  // ---------------------------------------------------------------------

  /** Python's string order: lexicographic by code point, a proper prefix first. */
  predicate StrLt(a: string, b: string)
    decreases |a|
  {
    if a == [] then b != []
    else if b == [] then false
    else a[0] < b[0] || (a[0] == b[0] && StrLt(a[1..], b[1..]))
  }

  lemma {:induction false} StrLtIrreflexive(a: string)
    ensures !StrLt(a, a)
    decreases |a|
  {
    if a != [] {
      StrLtIrreflexive(a[1..]);
    }
  }

  lemma {:induction false} StrLtTransitive(a: string, b: string, c: string)
    requires StrLt(a, b) && StrLt(b, c)
    ensures StrLt(a, c)
    decreases |a|
  {
    if a != [] && a[0] == b[0] && b[0] == c[0] {
      StrLtTransitive(a[1..], b[1..], c[1..]);
    }
  }

  lemma {:induction false} StrLtTotal(a: string, b: string)
    requires a != b
    ensures StrLt(a, b) || StrLt(b, a)
    decreases |a|
  {
    if a != [] && b != [] && a[0] == b[0] {
      assert a == [a[0]] + a[1..] && b == [b[0]] + b[1..];
      StrLtTotal(a[1..], b[1..]);
    }
  }

  /** Strictly ascending in Python's string order, hence free of duplicates. */
  predicate Ascending(s: seq<string>) {
    forall i, j :: 0 <= i < j < |s| ==> StrLt(s[i], s[j])
  }

  /** Adds `x` to an ascending sequence unless it is already there. */
  function Insert(x: string, s: seq<string>): (r: seq<string>)
    requires Ascending(s)
    ensures Ascending(r)
    ensures forall y :: y in r <==> y == x || y in s
    decreases |s|
  {
    if s == [] then [x]
    else if x == s[0] then s
    else if StrLt(x, s[0]) then
      assert forall j :: 0 <= j < |s| ==> StrLt(x, s[j]) by {
        forall j | 0 <= j < |s| ensures StrLt(x, s[j]) {
          if j > 0 { StrLtTransitive(x, s[0], s[j]); }
        }
      }
      [x] + s
    else
      var rest := Insert(x, s[1..]);
      StrLtTotal(x, s[0]);
      assert forall y :: y in rest ==> StrLt(s[0], y) by {
        forall y | y in rest ensures StrLt(s[0], y) {
          if y != x {
            var j :| 0 <= j < |s[1..]| && s[1..][j] == y;
            assert s[j + 1] == y;
          }
        }
      }
      assert s == [s[0]] + s[1..];
      [s[0]] + rest
  }

  /** `sorted(set(hits))`. */
  function SortedSet(hits: seq<string>): (r: seq<string>)
    ensures Ascending(r)
    ensures forall y :: y in r <==> y in hits
  {
    if hits == [] then []
    else
      var r := Insert(hits[|hits| - 1], SortedSet(hits[..|hits| - 1]));
      assert hits == hits[..|hits| - 1] + [hits[|hits| - 1]];
      r
  }

  lemma HeadIn(t: seq<string>)
    requires t != []
    ensures t[0] in t
  {
  }

  /** Two ascending sequences with the same elements are the same sequence. */
  lemma {:induction false} AscendingUnique(s: seq<string>, t: seq<string>)
    requires Ascending(s) && Ascending(t)
    requires forall y :: y in s <==> y in t
    ensures s == t
    decreases |s|
  {
    if s == [] {
      if t != [] {
        HeadIn(t);
        assert false;
      }
    } else {
      assert s[0] in s;
      assert t != [];
      assert t[0] in t;
      if s[0] != t[0] {
        var i :| 0 <= i < |s| && s[i] == t[0];
        var j :| 0 <= j < |t| && t[j] == s[0];
        StrLtTransitive(s[0], t[0], s[0]);
        StrLtIrreflexive(s[0]);
        assert false;
      }
      forall y
        ensures y in s[1..] <==> y in t[1..]
      {
        if y in s[1..] {
          var i :| 0 <= i < |s[1..]| && s[1..][i] == y;
          assert StrLt(s[0], s[i + 1]);
          StrLtIrreflexive(y);
          assert y in t;
        }
        if y in t[1..] {
          var i :| 0 <= i < |t[1..]| && t[1..][i] == y;
          assert StrLt(t[0], t[i + 1]);
          StrLtIrreflexive(y);
          assert y in s;
        }
      }
      AscendingUnique(s[1..], t[1..]);
      assert s == [s[0]] + s[1..] && t == [t[0]] + t[1..];
    }
  }

  /** The keywords whose lower-case form occurs in `low`, in keyword order. */
  function Hits(keywords: seq<string>, low: string): seq<string> {
    if keywords == [] then []
    else
      var n := |keywords| - 1;
      Hits(keywords[..n], low) + (if Contains(low, Lower(keywords[n])) then [keywords[n]] else [])
  }

  /** `detect_emphasis(text, emphasize_keywords)`. */
  function Emphasis(text: string, keywords: seq<string>): seq<string> {
    SortedSet(Hits(keywords, Lower(text)))
  }

  /** `detect_emphasis`: collects the keywords found in the lower-cased text, then sorts them without repeats. */
  method DetectEmphasis(text: string, keywords: seq<string>) returns (r: seq<string>)
    ensures r == Emphasis(text, keywords)
  {
    var hits := [];
    var low := Lower(text);
    for i := 0 to |keywords|
      invariant hits == Hits(keywords[..i], low)
    {
      var kw := keywords[i];
      assert keywords[..i + 1][..i] == keywords[..i];
      if Contains(low, Lower(kw)) {
        hits := hits + [kw];
      }
    }
    assert keywords[..|keywords|] == keywords;
    r := SortedSet(hits);
  }

  lemma {:induction false} HitsMembers(keywords: seq<string>, low: string)
    ensures forall kw :: kw in Hits(keywords, low) <==> kw in keywords && Contains(low, Lower(kw))
  {
    if keywords != [] {
      var n := |keywords| - 1;
      HitsMembers(keywords[..n], low);
      assert keywords == keywords[..n] + [keywords[n]];
    }
  }

  /**
   * The emphasis list is strictly ascending (no keyword twice), and a
   * keyword is in it exactly when it is one of the given keywords and
   * occurs in the text, ignoring case.
   */
  lemma EmphasisFacts(text: string, keywords: seq<string>)
    ensures Ascending(Emphasis(text, keywords))
    ensures forall kw :: kw in Emphasis(text, keywords)
                     <==> kw in keywords && Contains(Lower(text), Lower(kw))
  {
    HitsMembers(keywords, Lower(text));
  }

  /** Only which keywords are given matters, not their order or repeats. */
  lemma EmphasisSetOnly(text: string, k1: seq<string>, k2: seq<string>)
    requires forall kw :: kw in k1 <==> kw in k2
    ensures Emphasis(text, k1) == Emphasis(text, k2)
  {
    EmphasisFacts(text, k1);
    EmphasisFacts(text, k2);
    AscendingUnique(Emphasis(text, k1), Emphasis(text, k2));
  }
}
