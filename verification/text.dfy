/**
 The string operations the search relies on: `toLowerCase` (ASCII letters
 only), `trim` (JavaScript's white space and line terminators) and
 `includes` (substring containment).
 */
module Text {

  /** JavaScript's WhiteSpace and LineTerminator code points, which `trim`
      removes from both ends of a string. */
  predicate IsJsSpace(c: char) {
    || c == '\t' || c == '\n' || c == '\U{B}' || c == '\U{C}' || c == '\r'
    || c == ' ' || c == '\U{A0}' || c == '\U{1680}'
    || ('\U{2000}' <= c <= '\U{200A}')
    || c == '\U{2028}' || c == '\U{2029}' || c == '\U{202F}'
    || c == '\U{205F}' || c == '\U{3000}' || c == '\U{FEFF}'
  }

  function LowerChar(c: char): char {
    if 'A' <= c <= 'Z' then (c as int + 32) as char else c
  }

  function Lower(s: string): string {
    if s == [] then [] else [LowerChar(s[0])] + Lower(s[1..])
  }

  /** The number of white-space characters at the front of `s`. */
  function LeadingSpace(s: string): (n: nat)
    ensures n <= |s|
    ensures forall i :: 0 <= i < n ==> IsJsSpace(s[i])
    ensures n == |s| || !IsJsSpace(s[n])
    decreases |s|
  {
    if s == [] || !IsJsSpace(s[0]) then 0 else 1 + LeadingSpace(s[1..])
  }

  /** The number of white-space characters at the back of `s`. */
  function TrailingSpace(s: string): (n: nat)
    ensures n <= |s|
    ensures forall i :: |s| - n <= i < |s| ==> IsJsSpace(s[i])
    ensures n == |s| || !IsJsSpace(s[|s| - n - 1])
    decreases |s|
  {
    if s == [] || !IsJsSpace(s[|s| - 1]) then 0 else 1 + TrailingSpace(s[..|s| - 1])
  }

  /** `r` is `s` with the white space before offset `a` and after `a + |r|`
      removed. */
  ghost predicate StrippedAt(s: string, a: nat, r: string) {
    && a + |r| <= |s|
    && s[a..a + |r|] == r
    && (forall i :: 0 <= i < a ==> IsJsSpace(s[i]))
    && (forall i :: a + |r| <= i < |s| ==> IsJsSpace(s[i]))
  }

  /** `trim`: drops white space at both ends, the leading run first. */
  function Trim(s: string): (r: string)
    ensures |r| <= |s|
    ensures r == [] || (!IsJsSpace(r[0]) && !IsJsSpace(r[|r| - 1]))
  {
    var t := s[LeadingSpace(s)..];
    t[..|t| - TrailingSpace(t)]
  }

  /** What `trim` removes is white space and nothing else: its result is the
      infix of the input that starts where the leading white space ends. */
  lemma TrimIsStripped(s: string)
    ensures StrippedAt(s, LeadingSpace(s), Trim(s))
  {
    var a := LeadingSpace(s);
    var t := s[a..];
    var b := TrailingSpace(t);
    assert Trim(s) == s[a..|s| - b];
    forall i | |s| - b <= i < |s|
      ensures IsJsSpace(s[i])
    {
      assert s[i] == t[i - a];
    }
  }

  /** The specification of `includes`: `needle` occurs in `hay` at some offset. */
  ghost predicate OccursIn(needle: string, hay: string) {
    exists i: nat :: OccursAt(needle, hay, i)
  }

  ghost predicate OccursAt(needle: string, hay: string, i: nat) {
    i + |needle| <= |hay| && hay[i..i + |needle|] == needle
  }

  /** `hay.includes(needle)`, by trying each offset from the left. */
  function Includes(hay: string, needle: string): bool
    decreases |hay|
  {
    if needle <= hay then true
    else if |hay| <= |needle| then false
    else Includes(hay[1..], needle)
  }

  /** `includes` decides occurrence, in both directions. */
  lemma {:induction false} IncludesIff(hay: string, needle: string)
    ensures Includes(hay, needle) <==> OccursIn(needle, hay)
    decreases |hay|
  {
    var n := |needle|;
    if needle <= hay {
      assert OccursAt(needle, hay, 0);
    } else {
      assert !OccursAt(needle, hay, 0);
      if |hay| <= n {
        // Only offset 0 could fit, and it does not match.
        forall i: nat
          ensures !OccursAt(needle, hay, i)
        {
        }
      } else {
        var tail := hay[1..];
        IncludesIff(tail, needle);
        if OccursIn(needle, hay) {
          var i: nat :| OccursAt(needle, hay, i);
          assert i != 0;
          OccursInTail(needle, hay, i - 1);
        }
        if OccursIn(needle, tail) {
          var i: nat :| OccursAt(needle, tail, i);
          OccursInTail(needle, hay, i);
        }
      }
    }
  }

  /** Offset `i + 1` of `hay` is offset `i` of its tail. */
  lemma OccursInTail(needle: string, hay: string, i: nat)
    requires hay != []
    ensures OccursAt(needle, hay, i + 1) <==> OccursAt(needle, hay[1..], i)
  {
    if i + |needle| <= |hay[1..]| {
      assert hay[1..][i..i + |needle|] == hay[i + 1..i + 1 + |needle|];
    }
  }

  /** The empty string occurs in every string. */
  lemma EmptyIncludedEverywhere(hay: string)
    ensures Includes(hay, "")
  {
  }

  /** Lower-casing maps each character on its own. */
  lemma {:induction false} LowerAppend(a: string, b: string)
    ensures Lower(a + b) == Lower(a) + Lower(b)
    decreases |a|
  {
    if a == [] {
      assert a + b == b;
    } else {
      assert (a + b)[1..] == a[1..] + b;
      LowerAppend(a[1..], b);
    }
  }

  /** Lower-casing keeps the length and maps each character on its own. */
  lemma {:induction false} LowerPointwise(s: string)
    ensures |Lower(s)| == |s|
    ensures forall i :: 0 <= i < |s| ==> Lower(s)[i] == LowerChar(s[i])
    decreases |s|
  {
    if s != [] {
      LowerPointwise(s[1..]);
      forall i | 0 <= i < |s|
        ensures Lower(s)[i] == LowerChar(s[i])
      {
        if i > 0 {
          assert Lower(s)[i] == Lower(s[1..])[i - 1];
          assert s[1..][i - 1] == s[i];
        }
      }
    }
  }

  /** Lower-casing twice is lower-casing once. */
  lemma {:induction false} LowerIdempotent(s: string)
    ensures Lower(Lower(s)) == Lower(s)
    decreases |s|
  {
    if s != [] {
      LowerIdempotent(s[1..]);
      assert Lower(s)[1..] == Lower(s[1..]);
    }
  }

  /** `trim` leaves a string alone when neither end is white space. */
  lemma TrimKeepsUnpadded(s: string)
    requires s != [] && !IsJsSpace(s[0]) && !IsJsSpace(s[|s| - 1])
    ensures Trim(s) == s
  {
  }
}
