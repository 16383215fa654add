/**
 * String helpers with Python's meaning: `str.strip()`, `str.lower()`,
 * `needle in haystack` and `str.split(sep)`.
 */
module Text {

  /** The characters Python's `str.isspace()` accepts, which `str.strip()` removes. */
  predicate IsSpace(c: char) {
    c == ' ' || ('\t' <= c <= '\r') || ('\U{1c}' <= c <= '\U{1f}')
    || c == '\U{85}' || c == '\U{a0}' || c == '\U{1680}'
    || ('\U{2000}' <= c <= '\U{200a}') || c == '\U{2028}' || c == '\U{2029}'
    || c == '\U{202f}' || c == '\U{205f}' || c == '\U{3000}'
  }

  /** `str.lower()` restricted to the ASCII letters. */
  function LowerChar(c: char): (r: char)
    ensures IsSpace(c) <==> IsSpace(r)
    ensures 'A' <= c <= 'Z' ==> r != c
    ensures !('A' <= c <= 'Z') ==> r == c
  {
    if 'A' <= c <= 'Z' then (c as int + 32) as char else c
  }

  function Lower(s: string): (r: string)
    ensures |r| == |s|
    ensures forall i :: 0 <= i < |s| ==> r[i] == LowerChar(s[i])
  {
    seq(|s|, i requires 0 <= i < |s| => LowerChar(s[i]))
  }

  lemma LowerIdempotent(s: string)
    ensures Lower(Lower(s)) == Lower(s)
  {
  }

  lemma LowerAppend(a: string, b: string)
    ensures Lower(a + b) == Lower(a) + Lower(b)
  {
  }

  function TrimLeft(s: string): (r: string)
    ensures |r| <= |s| && r == s[|s| - |r|..]
    ensures r == [] || !IsSpace(r[0])
  {
    if s != [] && IsSpace(s[0]) then TrimLeft(s[1..]) else s
  }

  function TrimRight(s: string): (r: string)
    ensures |r| <= |s| && r == s[..|r|]
    ensures r == [] || !IsSpace(r[|r| - 1])
  {
    if s != [] && IsSpace(s[|s| - 1]) then TrimRight(s[..|s| - 1]) else s
  }

  /** `str.strip()`: drops leading and trailing whitespace. */
  function Strip(s: string): string {
    TrimRight(TrimLeft(s))
  }

  /** `needle` occurs in `haystack` starting at index `i`. */
  predicate OccursAt(haystack: string, needle: string, i: int) {
    0 <= i <= |haystack| - |needle| && haystack[i..i + |needle|] == needle
  }

  /** `Strip` keeps a contiguous piece of its input that neither starts nor ends with whitespace. */
  lemma StripShape(s: string)
    ensures var r := Strip(s);
      (r == [] || (!IsSpace(r[0]) && !IsSpace(r[|r| - 1])))
      && exists i :: OccursAt(s, r, i)
  {
    var l := TrimLeft(s);
    var r := TrimRight(l);
    var i := |s| - |l|;
    assert s[i..i + |r|] == r;
    assert OccursAt(s, r, i);
  }

  /** Every character `Strip` keeps comes from its input. */
  lemma StripChars(s: string)
    ensures forall k :: 0 <= k < |Strip(s)| ==> Strip(s)[k] in s
  {
    var l := TrimLeft(s);
    var r := TrimRight(l);
    forall k | 0 <= k < |r|
      ensures r[k] in s
    {
      assert r[k] == l[k] == s[|s| - |l| + k];
    }
  }

  /** What `TrimLeft` drops is whitespace. */
  lemma {:induction false} TrimLeftSpaces(s: string)
    ensures forall i :: 0 <= i < |s| - |TrimLeft(s)| ==> IsSpace(s[i])
  {
    if s != [] && IsSpace(s[0]) {
      TrimLeftSpaces(s[1..]);
      forall i | 1 <= i < |s| - |TrimLeft(s)|
        ensures IsSpace(s[i])
      {
        assert s[i] == s[1..][i - 1];
      }
    }
  }

  /** What `TrimRight` drops is whitespace. */
  lemma {:induction false} TrimRightSpaces(s: string)
    ensures forall i :: |TrimRight(s)| <= i < |s| ==> IsSpace(s[i])
  {
    if s != [] && IsSpace(s[|s| - 1]) {
      var n := |s| - 1;
      TrimRightSpaces(s[..n]);
      forall i | |TrimRight(s)| <= i < n
        ensures IsSpace(s[i])
      {
        assert s[i] == s[..n][i];
      }
    }
  }

  /** `s.strip()` is empty exactly when `s` holds only whitespace. */
  lemma StripEmptyIff(s: string)
    ensures Strip(s) == [] <==> forall i :: 0 <= i < |s| ==> IsSpace(s[i])
  {
    var l := TrimLeft(s);
    TrimLeftSpaces(s);
    if Strip(s) == [] && l != [] {
      TrimRightStops(l, 0);
      assert false;
    }
    if (forall i :: 0 <= i < |s| ==> IsSpace(s[i])) && l != [] {
      assert false;
    }
  }

  lemma {:induction false} TrimLeftLower(s: string)
    ensures TrimLeft(Lower(s)) == Lower(TrimLeft(s))
  {
    if s != [] {
      assert Lower(s)[1..] == Lower(s[1..]);
      if IsSpace(s[0]) { TrimLeftLower(s[1..]); }
    }
  }

  lemma {:induction false} TrimRightLower(s: string)
    ensures TrimRight(Lower(s)) == Lower(TrimRight(s))
  {
    if s != [] {
      var n := |s| - 1;
      LowerAppend(s[..n], [s[n]]);
      assert s == s[..n] + [s[n]];
      assert Lower(s)[..n] == Lower(s[..n]);
      if IsSpace(s[n]) { TrimRightLower(s[..n]); }
    }
  }

  /** Lower-casing and stripping commute, so `t.strip().lower()` only depends on `t.lower()`. */
  lemma StripLowerCommute(s: string)
    ensures Strip(Lower(s)) == Lower(Strip(s))
  {
    TrimLeftLower(s);
    TrimRightLower(TrimLeft(s));
  }

  function IsPrefix(p: string, s: string): (r: bool)
    ensures r <==> |p| <= |s| && s[..|p|] == p
  {
    |p| <= |s| && s[..|p|] == p
  }

  /** Python's substring test `needle in haystack`. */
  function Contains(haystack: string, needle: string): (r: bool)
    ensures r <==> exists i :: OccursAt(haystack, needle, i)
    decreases |haystack|
  {
    if IsPrefix(needle, haystack) then
      assert OccursAt(haystack, needle, 0);
      true
    else if haystack == [] then
      assert forall i :: !OccursAt(haystack, needle, i);
      false
    else
      var r := Contains(haystack[1..], needle);
      assert r ==> exists i :: OccursAt(haystack, needle, i) by {
        if r {
          var j :| OccursAt(haystack[1..], needle, j);
          assert haystack[j + 1..j + 1 + |needle|] == haystack[1..][j..j + |needle|];
          assert OccursAt(haystack, needle, j + 1);
        }
      }
      assert (exists i :: OccursAt(haystack, needle, i)) ==> r by {
        if exists i :: OccursAt(haystack, needle, i) {
          var i :| OccursAt(haystack, needle, i);
          assert i != 0;
          assert haystack[1..][i - 1..i - 1 + |needle|] == haystack[i..i + |needle|];
          assert OccursAt(haystack[1..], needle, i - 1);
        }
      }
      r
  }

  /** Python's `s.split(sep)` for a one-character separator: every occurrence cuts, empty pieces stay. */
  function Split(s: string, sep: char): (r: seq<string>)
    ensures |r| >= 1
    ensures forall k :: 0 <= k < |r| ==> PieceOf(r[k], s, sep)
    decreases |s|
  {
    if s == [] then [""]
    else
      var rest := Split(s[1..], sep);
      if s[0] == sep then
        assert forall k :: 1 <= k < |rest| + 1 ==> ([""] + rest)[k] == rest[k - 1];
        [""] + rest
      else
        var first := [s[0]] + rest[0];
        assert PieceOf(first, s, sep) by {
          assert PieceOf(rest[0], s[1..], sep);
          forall i | 1 <= i < |first|
            ensures first[i] != sep && first[i] in s
          {
            assert first[i] == rest[0][i - 1];
          }
        }
        assert forall k :: 1 <= k < |rest| ==> PieceOf(rest[k], s[1..], sep);
        [first] + rest[1..]
  }

  /** A piece of `s.split(sep)`: free of the separator and made of characters of `s`. */
  predicate PieceOf(piece: string, s: string, sep: char) {
    forall i :: 0 <= i < |piece| ==> piece[i] != sep && piece[i] in s
  }

  lemma TrimLeftStops(s: string, p: int)
    requires 0 <= p < |s| && !IsSpace(s[p])
    ensures |s| - |TrimLeft(s)| <= p
  {
    TrimLeftSpaces(s);
  }

  lemma TrimRightStops(s: string, p: int)
    requires 0 <= p < |s| && !IsSpace(s[p])
    ensures p < |TrimRight(s)|
  {
    TrimRightSpaces(s);
  }

  /** A word that neither starts nor ends with whitespace survives `strip()` of any text around it. */
  lemma StripKeeps(s: string, w: string, i: int)
    requires OccursAt(s, w, i)
    requires w != [] && !IsSpace(w[0]) && !IsSpace(w[|w| - 1])
    ensures Contains(Strip(s), w)
  {
    StripKeepsAt(s, w, i);
  }

  lemma SliceOfSuffix(s: string, k: int, i: int, j: int)
    requires 0 <= k <= i <= j <= |s|
    ensures s[k..][i - k..j - k] == s[i..j]
  {
  }

  lemma TrimLeftKeeps(s: string, w: string, i: int)
    requires OccursAt(s, w, i) && w != [] && !IsSpace(w[0])
    ensures OccursAt(TrimLeft(s), w, i - (|s| - |TrimLeft(s)|))
  {
    var l := TrimLeft(s);
    var k := |s| - |l|;
    assert s[i] == w[0];
    TrimLeftStops(s, i);
    assert l == s[k..];
    SliceOfSuffix(s, k, i, i + |w|);
  }

  lemma TrimRightKeeps(s: string, w: string, i: int)
    requires OccursAt(s, w, i) && w != [] && !IsSpace(w[|w| - 1])
    ensures OccursAt(TrimRight(s), w, i)
  {
    assert s[i + |w| - 1] == w[|w| - 1];
    TrimRightStops(s, i + |w| - 1);
    var r := TrimRight(s);
    assert r[i..i + |w|] == s[i..i + |w|];
  }

  lemma StripKeepsAt(s: string, w: string, i: int)
    requires OccursAt(s, w, i)
    requires w != [] && !IsSpace(w[0]) && !IsSpace(w[|w| - 1])
    ensures OccursAt(Strip(s), w, i - (|s| - |TrimLeft(s)|))
  {
    TrimLeftKeeps(s, w, i);
    TrimRightKeeps(TrimLeft(s), w, i - (|s| - |TrimLeft(s)|));
  }

  /** Lower-casing keeps every occurrence, lower-cased. */
  lemma LowerContains(s: string, w: string)
    requires Contains(s, w)
    ensures Contains(Lower(s), Lower(w))
  {
    var i :| OccursAt(s, w, i);
    assert Lower(s)[i..i + |w|] == Lower(w);
    assert OccursAt(Lower(s), Lower(w), i);
  }

  /** `sep.join(parts)`. */
  function Join(parts: seq<string>, sep: char): string
    decreases |parts|
  {
    if parts == [] then ""
    else if |parts| == 1 then parts[0]
    else parts[0] + [sep] + Join(parts[1..], sep)
  }

  /** Splitting and joining again on the same separator gives back the text. */
  lemma JoinCons(p: string, rest: seq<string>, sep: char)
    requires rest != []
    ensures Join([p] + rest, sep) == p + [sep] + Join(rest, sep)
  {
    assert ([p] + rest)[1..] == rest;
  }

  /** Putting a character in front of the first piece puts it in front of the joined text. */
  lemma JoinHead(c: char, rest: seq<string>, sep: char)
    requires rest != []
    ensures Join([[c] + rest[0]] + rest[1..], sep) == [c] + Join(rest, sep)
  {
    if |rest| > 1 {
      JoinCons([c] + rest[0], rest[1..], sep);
      JoinCons(rest[0], rest[1..], sep);
      assert [rest[0]] + rest[1..] == rest;
    } else {
      assert [[c] + rest[0]] + rest[1..] == [[c] + rest[0]];
    }
  }

  lemma SplitStep(s: string, sep: char)
    requires s != []
    ensures var rest := Split(s[1..], sep);
      Split(s, sep) == if s[0] == sep then [""] + rest else [[s[0]] + rest[0]] + rest[1..]
  {
  }

  lemma {:induction false} SplitJoin(s: string, sep: char)
    ensures Join(Split(s, sep), sep) == s
    decreases |s|
  {
    if s != [] {
      var rest := Split(s[1..], sep);
      SplitJoin(s[1..], sep);
      SplitStep(s, sep);
      if s[0] == sep {
        JoinCons("", rest, sep);
        assert "" + [sep] + s[1..] == s;
      } else {
        JoinHead(s[0], rest, sep);
        assert [s[0]] + s[1..] == s;
      }
    }
  }

  /** `s.replace(from, to)` for single characters. */
  function ReplaceChar(s: string, from: char, to: char): (r: string)
    ensures |r| == |s|
    ensures forall i :: 0 <= i < |s| ==> r[i] == if s[i] == from then to else s[i]
  {
    if s == [] then [] else [if s[0] == from then to else s[0]] + ReplaceChar(s[1..], from, to)
  }
}
