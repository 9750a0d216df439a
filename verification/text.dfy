/**
 * The string primitives the filter pipeline relies on: `String.prototype.trim`,
 * `String.prototype.toLowerCase` (on the ASCII letters) and
 * `String.prototype.includes`.
 */
module Text {

  /** The characters `trim` removes: ECMAScript WhiteSpace and LineTerminator. */
  predicate IsWhitespace(c: char)
  {
    || c == '\t' || c == '\n' || c == '\U{000B}' || c == '\U{000C}' || c == '\r'
    || c == ' ' || c == '\U{00A0}' || c == '\U{1680}'
    || ('\U{2000}' <= c <= '\U{200A}')
    || c == '\U{2028}' || c == '\U{2029}' || c == '\U{202F}' || c == '\U{205F}'
    || c == '\U{3000}' || c == '\U{FEFF}'
  }

  predicate IsUpper(c: char)
  {
    'A' <= c <= 'Z'
  }

  /** Lower-cases one character; only the ASCII capitals change. */
  function LowerChar(c: char): (r: char)
    ensures !IsUpper(r)
    ensures !IsUpper(c) ==> r == c
    ensures IsWhitespace(r) <==> IsWhitespace(c)
  {
    if IsUpper(c) then (c as int + ('a' as int - 'A' as int)) as char else c
  }

  /** `s.toLowerCase()`, character by character. */
  function Lower(s: string): string
  {
    seq(|s|, i requires 0 <= i < |s| => LowerChar(s[i]))
  }

  /** The index of the first non-whitespace character of `s` at or after `i`, or `|s|`. */
  function SkipStart(s: string, i: nat): (a: nat)
    requires i <= |s|
    ensures i <= a <= |s|
    ensures forall k :: i <= k < a ==> IsWhitespace(s[k])
    ensures a < |s| ==> !IsWhitespace(s[a])
    decreases |s| - i
  {
    if i < |s| && IsWhitespace(s[i]) then SkipStart(s, i + 1) else i
  }

  /** The end of `s[a..j]` once its trailing whitespace is removed. */
  function SkipEnd(s: string, a: nat, j: nat): (b: nat)
    requires a <= j <= |s|
    ensures a <= b <= j
    ensures forall k :: b <= k < j ==> IsWhitespace(s[k])
    ensures a < b ==> !IsWhitespace(s[b - 1])
    decreases j
  {
    if a < j && IsWhitespace(s[j - 1]) then SkipEnd(s, a, j - 1) else j
  }

  /** `s.trim()`: the longest slice of `s` that neither starts nor ends with whitespace. */
  function Trim(s: string): (r: string)
    ensures exists a :: Slice(s, r, a)
    ensures r != [] ==> !IsWhitespace(r[0]) && !IsWhitespace(r[|r| - 1])
    ensures r == [] <==> forall i :: 0 <= i < |s| ==> IsWhitespace(s[i])
  {
    var a := SkipStart(s, 0);
    var b := SkipEnd(s, a, |s|);
    assert Slice(s, s[a..b], a);
    s[a..b]
  }

  /** `r` is `s[a..a + |r|]` and every character of `s` outside that slice is whitespace. */
  ghost predicate Slice(s: string, r: string, a: int)
  {
    && 0 <= a && a + |r| <= |s|
    && s[a..a + |r|] == r
    && (forall i :: 0 <= i < a ==> IsWhitespace(s[i]))
    && (forall i :: a + |r| <= i < |s| ==> IsWhitespace(s[i]))
  }

  /** `t` occurs in `s` starting at index `i`. */
  ghost predicate OccursAt(s: string, t: string, i: int)
  {
    0 <= i && i + |t| <= |s| && s[i..i + |t|] == t
  }

  /** `s.includes(t)`, by scanning the start positions of `s` from the left. */
  predicate Contains(s: string, t: string)
    decreases |s|
  {
    if |t| > |s| then false
    else if s[..|t|] == t then true
    else Contains(s[1..], t)
  }

  /** `Contains` agrees with the reference definition: `t` occurs somewhere in `s`. */
  lemma {:induction false} ContainsOccurs(s: string, t: string)
    ensures Contains(s, t) <==> exists i :: OccursAt(s, t, i)
    decreases |s|
  {
    if |t| > |s| {
    } else if s[..|t|] == t {
      assert OccursAt(s, t, 0);
    } else {
      ContainsOccurs(s[1..], t);
      if Contains(s[1..], t) {
        var i :| OccursAt(s[1..], t, i);
        assert s[1..][i..i + |t|] == s[i + 1..i + 1 + |t|];
        assert OccursAt(s, t, i + 1);
      } else {
        forall i | OccursAt(s, t, i)
          ensures false
        {
          assert i != 0;
          assert s[1..][i - 1..i - 1 + |t|] == s[i..i + |t|];
          assert OccursAt(s[1..], t, i - 1);
        }
      }
    }
  }

  /** A string without ASCII capitals is its own lower-case form. */
  lemma LowerNoUpper(s: string)
    requires forall i :: 0 <= i < |s| ==> !IsUpper(s[i])
    ensures Lower(s) == s
  {
  }

  /** Lower-casing keeps every character's whitespace status, so trimming finds the same bounds. */
  lemma {:induction false} LowerSkipStart(s: string, i: nat)
    requires i <= |s|
    ensures SkipStart(Lower(s), i) == SkipStart(s, i)
    decreases |s| - i
  {
    if i < |s| {
      LowerSkipStart(s, i + 1);
    }
  }

  lemma {:induction false} LowerSkipEnd(s: string, a: nat, j: nat)
    requires a <= j <= |s|
    ensures SkipEnd(Lower(s), a, j) == SkipEnd(s, a, j)
    decreases j
  {
    if a < j {
      LowerSkipEnd(s, a, j - 1);
    }
  }

  /** Lower-casing a slice is slicing the lower-cased string. */
  lemma LowerSlice(s: string, a: nat, b: nat)
    requires a <= b <= |s|
    ensures Lower(s[a..b]) == Lower(s)[a..b]
  {
    var r := Lower(s[a..b]);
    assert forall i :: 0 <= i < |r| ==> r[i] == Lower(s)[a + i];
  }

  /** Lower-casing commutes with trimming, so the order of `trim().toLowerCase()` does not matter. */
  lemma LowerTrimCommute(s: string)
    ensures Lower(Trim(s)) == Trim(Lower(s))
  {
    var a := SkipStart(s, 0);
    var b := SkipEnd(s, a, |s|);
    LowerSkipStart(s, 0);
    LowerSkipEnd(s, a, |s|);
    LowerSlice(s, a, b);
  }
}
