/**
 * The three string primitives the chat tutor relies on: `String.prototype.includes`,
 * `toLowerCase` (restricted to ASCII letters) and `trim`.
 */
module Text {

  /** `pat` occurs in `s` starting at index `i`. */
  predicate OccursAt(s: string, pat: string, i: nat)
  {
    i + |pat| <= |s| && s[i..i + |pat|] == pat
  }

  /** An occurrence in `s[1..]` is an occurrence in `s`, one position further on. */
  lemma OccursShift(s: string, pat: string, i: nat)
    requires |s| > 0
    ensures OccursAt(s[1..], pat, i) <==> OccursAt(s, pat, i + 1)
  {
    if i + 1 + |pat| <= |s| {
      assert s[1..][i..i + |pat|] == s[i + 1..i + 1 + |pat|];
    }
  }

  /** Substring search, as `s.includes(pat)`: true exactly when `pat` occurs somewhere in `s`. */
  function Contains(s: string, pat: string): (b: bool)
    ensures b <==> exists i: nat :: OccursAt(s, pat, i)
    decreases |s|
  {
    if |pat| > |s| then
      assert forall i: nat :: !OccursAt(s, pat, i);
      false
    else if s[..|pat|] == pat then
      assert OccursAt(s, pat, 0);
      true
    else
      assert !OccursAt(s, pat, 0);
      assert forall i: nat :: OccursAt(s[1..], pat, i) <==> OccursAt(s, pat, i + 1) by {
        forall i: nat ensures OccursAt(s[1..], pat, i) <==> OccursAt(s, pat, i + 1) {
          OccursShift(s, pat, i);
        }
      }
      assert (exists i: nat :: OccursAt(s, pat, i)) ==> exists i: nat :: OccursAt(s[1..], pat, i) by {
        if i: nat :| OccursAt(s, pat, i) {
          assert i > 0;
          assert OccursAt(s[1..], pat, i - 1);
        }
      }
      Contains(s[1..], pat)
  }

  /** A one-character pattern occurs exactly when the character is in the string. */
  lemma ContainsChar(s: string, c: char)
    ensures Contains(s, [c]) <==> c in s
  {
    if c in s {
      var i :| 0 <= i < |s| && s[i] == c;
      assert OccursAt(s, [c], i);
    }
    if Contains(s, [c]) {
      var i: nat :| OccursAt(s, [c], i);
      assert s[i] == s[i..i + 1][0];
    }
  }

  /** A two-character pattern occurs exactly when the two characters are adjacent somewhere. */
  lemma ContainsPair(s: string, a: char, b: char)
    ensures Contains(s, [a, b]) <==> exists i :: 0 <= i < |s| - 1 && s[i] == a && s[i + 1] == b
  {
    if i :| 0 <= i < |s| - 1 && s[i] == a && s[i + 1] == b {
      assert s[i..i + 2] == [a, b];
      assert OccursAt(s, [a, b], i);
    }
    if Contains(s, [a, b]) {
      var i: nat :| OccursAt(s, [a, b], i);
      assert s[i] == s[i..i + 2][0] && s[i + 1] == s[i..i + 2][1];
    }
  }

  /** A pattern holding a character the string lacks cannot occur in it. */
  lemma AbsentChar(s: string, pat: string, c: char)
    requires c in pat && c !in s
    ensures !Contains(s, pat)
  {
  }

  predicate IsAsciiUpper(c: char) { 'A' <= c <= 'Z' }

  predicate IsAsciiLetter(c: char) { 'A' <= c <= 'Z' || 'a' <= c <= 'z' }

  /** Lower-cases one ASCII letter; every other character is left as it is. */
  function LowerChar(c: char): (d: char)
    ensures IsAsciiUpper(c) ==> 'a' <= d <= 'z' && d as int - c as int == 32
    ensures !IsAsciiUpper(c) ==> d == c
    ensures !IsAsciiUpper(d)
  {
    if IsAsciiUpper(c) then (c as int + 32) as char else c
  }

  /** `s.toLowerCase()` restricted to ASCII letters. */
  function Lower(s: string): (r: string)
    ensures |r| == |s|
    ensures forall i :: 0 <= i < |s| ==> r[i] == LowerChar(s[i])
  {
    seq(|s|, i requires 0 <= i < |s| => LowerChar(s[i]))
  }

  /** Lower-casing twice is lower-casing once. */
  lemma LowerIdempotent(s: string)
    ensures Lower(Lower(s)) == Lower(s)
  {
  }

  /** At one position, lower-casing keeps an occurrence of a letter-free pattern exactly as it was. */
  lemma OccursLower(s: string, pat: string, i: nat)
    requires forall j :: 0 <= j < |pat| ==> !IsAsciiLetter(pat[j])
    ensures OccursAt(Lower(s), pat, i) <==> OccursAt(s, pat, i)
  {
    var l := Lower(s);
    if i + |pat| <= |s| {
      if OccursAt(l, pat, i) {
        forall j | 0 <= j < |pat| ensures s[i + j] == pat[j] {
          assert l[i..i + |pat|][j] == pat[j];
        }
        assert s[i..i + |pat|] == pat;
      }
      if OccursAt(s, pat, i) {
        forall j | 0 <= j < |pat| ensures l[i + j] == pat[j] {
          assert s[i..i + |pat|][j] == pat[j];
        }
        assert l[i..i + |pat|] == pat;
      }
    }
  }

  /**
   * Lower-casing cannot create or destroy an occurrence of a pattern that holds
   * no ASCII letter, such as `<`, `</` or a Chinese keyword.
   */
  lemma LowerKeepsLetterFree(s: string, pat: string)
    requires forall j :: 0 <= j < |pat| ==> !IsAsciiLetter(pat[j])
    ensures Contains(Lower(s), pat) <==> Contains(s, pat)
  {
    if Contains(Lower(s), pat) {
      var i: nat :| OccursAt(Lower(s), pat, i);
      OccursLower(s, pat, i);
    }
    if Contains(s, pat) {
      var i: nat :| OccursAt(s, pat, i);
      OccursLower(s, pat, i);
    }
  }

  /** Lower-casing a string that already holds no upper-case ASCII letter changes nothing. */
  lemma LowerOfLower(s: string)
    requires forall i :: 0 <= i < |s| ==> !IsAsciiUpper(s[i])
    ensures Lower(s) == s
  {
  }

  /**
   * The white space `String.prototype.trim` removes: the ASCII blanks and
   * line breaks, no-break space, the byte-order mark and the Unicode space
   * separators and line/paragraph separators.
   */
  predicate IsSpace(c: char)
  {
    || c == ' ' || c == '\t' || c == '\n' || c == '\r' || c == '\U{000B}' || c == '\U{000C}'
    || c == '\U{00A0}' || c == '\U{1680}' || ('\U{2000}' <= c <= '\U{200A}')
    || c == '\U{2028}' || c == '\U{2029}' || c == '\U{202F}' || c == '\U{205F}'
    || c == '\U{3000}' || c == '\U{FEFF}'
  }

  predicate AllSpace(s: string)
  {
    forall i :: 0 <= i < |s| ==> IsSpace(s[i])
  }

  /** The first index at or after `i` that does not hold white space (or `|s|`). */
  function SkipSpace(s: string, i: nat): (k: nat)
    requires i <= |s|
    ensures i <= k <= |s|
    ensures forall j :: i <= j < k ==> IsSpace(s[j])
    ensures k < |s| ==> !IsSpace(s[k])
    decreases |s| - i
  {
    if i == |s| || !IsSpace(s[i]) then i else SkipSpace(s, i + 1)
  }

  /** The smallest end `e'` at or above `lo` such that `s[e'..e]` is all white space. */
  function SkipSpaceBack(s: string, lo: nat, e: nat): (k: nat)
    requires lo <= e <= |s|
    ensures lo <= k <= e
    ensures forall j :: k <= j < e ==> IsSpace(s[j])
    ensures k > lo ==> !IsSpace(s[k - 1])
    decreases e
  {
    if e == lo || !IsSpace(s[e - 1]) then e else SkipSpaceBack(s, lo, e - 1)
  }

  /** `r` is `s[a..b]` and everything `s` holds outside that slice is white space. */
  predicate StripsTo(s: string, a: nat, b: nat, r: string)
  {
    && a <= b <= |s|
    && r == s[a..b]
    && (forall j :: 0 <= j < a ==> IsSpace(s[j]))
    && (forall j :: b <= j < |s| ==> IsSpace(s[j]))
  }

  /** `s.trim()`: `s` without its leading and trailing white space. */
  function Trim(s: string): (r: string)
    ensures exists a: nat, b: nat :: StripsTo(s, a, b, r)
    ensures r == [] <==> AllSpace(s)
    ensures r != [] ==> !IsSpace(r[0]) && !IsSpace(r[|r| - 1])
  {
    var a := SkipSpace(s, 0);
    var b := SkipSpaceBack(s, a, |s|);
    assert StripsTo(s, a, b, s[a..b]);
    s[a..b]
  }

  /** Trimming an already trimmed string changes nothing. */
  lemma TrimIdempotent(s: string)
    ensures Trim(Trim(s)) == Trim(s)
  {
    var t := Trim(s);
    if t != [] {
      assert SkipSpace(t, 0) == 0;
      assert SkipSpaceBack(t, 0, |t|) == |t|;
    }
  }
}
