/**
 * The two string operations the grant search relies on: lower-casing
 * (Python's `str.lower`) and substring containment (Python's `q in s`).
 * Case mapping is restricted to ASCII letters; every other character is
 * left unchanged.
 */
module AsciiText {

  predicate IsUpper(c: char) { 'A' <= c <= 'Z' }

  predicate IsLower(c: char) { 'a' <= c <= 'z' }

  /** ASCII lower-casing of one character. */
  function LowerChar(c: char): (r: char)
    ensures !IsUpper(r)
    ensures IsUpper(c) ==> r as int == c as int + 32
    ensures !IsUpper(c) ==> r == c
  {
    if IsUpper(c) then (c as int + 32) as char else c
  }

  /** ASCII upper-casing of one character. */
  function UpperChar(c: char): (r: char)
    ensures !IsLower(r)
    ensures IsLower(c) ==> r as int == c as int - 32
    ensures !IsLower(c) ==> r == c
  {
    if IsLower(c) then (c as int - 32) as char else c
  }

  /** `s.lower()` restricted to ASCII letters. */
  function Lower(s: string): (r: string)
    ensures |r| == |s|
    ensures forall i :: 0 <= i < |s| ==> r[i] == LowerChar(s[i])
  {
    seq(|s|, i requires 0 <= i < |s| => LowerChar(s[i]))
  }

  /** `s.upper()` restricted to ASCII letters. */
  function Upper(s: string): (r: string)
    ensures |r| == |s|
    ensures forall i :: 0 <= i < |s| ==> r[i] == UpperChar(s[i])
  {
    seq(|s|, i requires 0 <= i < |s| => UpperChar(s[i]))
  }

  /** Lower-casing twice is lower-casing once. */
  lemma LowerIdempotent(s: string)
    ensures Lower(Lower(s)) == Lower(s)
  {
  }

  /** Upper-casing first does not change what lower-casing produces. */
  lemma LowerOfUpper(s: string)
    ensures Lower(Upper(s)) == Lower(s)
  {
  }

  /** Lower-casing commutes with slicing. */
  lemma LowerSlice(s: string, i: nat, j: nat)
    requires i <= j <= |s|
    ensures Lower(s)[i..j] == Lower(s[i..j])
  {
  }

  /** `q` occurs in `s` starting at index `i`. */
  predicate OccursAt(q: string, s: string, i: int)
  {
    0 <= i && i + |q| <= |s| && s[i..i + |q|] == q
  }

  /**
   * Python's `q in s` for strings: `q` is a prefix of `s` or of one of its
   * suffixes. A contained string is never longer than the text, and one of
   * the same length is the text itself.
   */
  predicate Contains(q: string, s: string)
    ensures Contains(q, s) ==> |q| <= |s|
    ensures Contains(q, s) && |q| == |s| ==> q == s
    decreases |s|
  {
    q <= s || (|s| > 0 && Contains(q, s[1..]))
  }

  /** `Contains` agrees with the positional definition of a substring, in both directions. */
  lemma {:induction false} ContainsIffOccurs(q: string, s: string)
    ensures Contains(q, s) <==> exists i :: OccursAt(q, s, i)
    decreases |s|
  {
    if q <= s {
      assert OccursAt(q, s, 0);
    } else if |s| > 0 {
      ContainsIffOccurs(q, s[1..]);
      if Contains(q, s[1..]) {
        var i :| OccursAt(q, s[1..], i);
        assert s[1..][i..i + |q|] == s[i + 1..i + 1 + |q|];
        assert OccursAt(q, s, i + 1);
      }
      if exists i :: OccursAt(q, s, i) {
        var i :| OccursAt(q, s, i);
        assert s[1..][i - 1..i - 1 + |q|] == s[i..i + |q|];
        assert OccursAt(q, s[1..], i - 1);
      }
    }
  }

  /** The empty string is contained in every string. */
  lemma EmptyContained(s: string)
    ensures Contains("", s)
  {
    assert "" <= s;
  }

  /** Only the empty string is contained in the empty string. */
  lemma {:induction false} ContainedInEmpty(q: string)
    ensures Contains(q, "") <==> q == ""
  {
    if q == "" { EmptyContained(""); }
  }

  /** A case-sensitive occurrence is still an occurrence after lower-casing both sides. */
  lemma {:induction false} ContainsLower(q: string, s: string)
    requires Contains(q, s)
    ensures Contains(Lower(q), Lower(s))
  {
    ContainsIffOccurs(q, s);
    var i :| OccursAt(q, s, i);
    LowerSlice(s, i, i + |q|);
    assert OccursAt(Lower(q), Lower(s), i);
    ContainsIffOccurs(Lower(q), Lower(s));
  }
}
