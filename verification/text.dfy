/** Strings as the pages use them: ASCII case mapping (the model of
    `toUpperCase` / `toLowerCase`) and `String.prototype.includes`. */
module Text {

  predicate IsUpperLetter(c: char) { 'A' <= c <= 'Z' }

  predicate IsLowerLetter(c: char) { 'a' <= c <= 'z' }

  function UpperChar(c: char): char {
    if IsLowerLetter(c) then (c as int - 32) as char else c
  }

  function LowerChar(c: char): char {
    if IsUpperLetter(c) then (c as int + 32) as char else c
  }

  /** `s.toUpperCase()` restricted to ASCII letters. */
  function Upper(s: string): string {
    seq(|s|, i requires 0 <= i < |s| => UpperChar(s[i]))
  }

  /** `s.toLowerCase()` restricted to ASCII letters. */
  function Lower(s: string): string {
    seq(|s|, i requires 0 <= i < |s| => LowerChar(s[i]))
  }

  /** A string with no lower-case letter left in it. */
  predicate IsUpperCase(s: string) {
    forall i :: 0 <= i < |s| ==> !IsLowerLetter(s[i])
  }

  /** Upper-casing keeps the length, changes only lower-case letters, and
      leaves no lower-case letter behind. */
  lemma UpperSpec(s: string)
    ensures |Upper(s)| == |s|
    ensures IsUpperCase(Upper(s))
    ensures forall i :: 0 <= i < |s| && !IsLowerLetter(s[i]) ==> Upper(s)[i] == s[i]
    ensures forall i :: 0 <= i < |s| && IsLowerLetter(s[i]) ==>
              IsUpperLetter(Upper(s)[i]) && LowerChar(Upper(s)[i]) == s[i]
  {
  }

  /** A string that is already upper case is a fixed point. */
  lemma UpperOfUpperCase(s: string)
    requires IsUpperCase(s)
    ensures Upper(s) == s
  {
  }

  /** Upper-casing is idempotent. */
  lemma UpperIdempotent(s: string)
    ensures Upper(Upper(s)) == Upper(s)
  {
    UpperSpec(s);
    UpperOfUpperCase(Upper(s));
  }

  /** `r` is an upper case of `s`: as long as `s`, with no lower-case letter,
      and differing from `s` only in the case of letters. */
  predicate IsUpperOf(r: string, s: string) {
    |r| == |s| && IsUpperCase(r) && Lower(r) == Lower(s)
  }

  lemma LowerOfUpperChar(c: char)
    ensures LowerChar(UpperChar(c)) == LowerChar(c)
  {
  }

  /** `Upper(s)` is an upper case of `s`. */
  lemma {:induction false} UpperIsUpperOf(s: string)
    ensures IsUpperOf(Upper(s), s)
  {
    UpperSpec(s);
    forall i | 0 <= i < |s| ensures Lower(Upper(s))[i] == Lower(s)[i] {
      LowerOfUpperChar(s[i]);
    }
  }

  /** Two characters with the same lower case, the first not a lower-case
      letter: the first is the upper case of the second. */
  lemma UpperCharUnique(x: char, y: char)
    requires !IsLowerLetter(x) && LowerChar(x) == LowerChar(y)
    ensures x == UpperChar(y)
  {
  }

  /** The upper case is unique: `Upper(s)` is the only upper case of `s`. */
  lemma {:induction false} UpperOfUnique(r: string, s: string)
    requires IsUpperOf(r, s)
    ensures r == Upper(s)
  {
    forall i | 0 <= i < |s| ensures r[i] == Upper(s)[i] {
      assert Lower(r)[i] == Lower(s)[i];
      UpperCharUnique(r[i], s[i]);
    }
  }

  /** Upper-casing distributes over concatenation. */
  lemma UpperConcat(a: string, b: string)
    ensures Upper(a + b) == Upper(a) + Upper(b)
  {
  }

  predicate IsPrefix(p: string, s: string) {
    |p| <= |s| && s[..|p|] == p
  }

  /** `s.includes(t)`: is `t` a prefix of some suffix of `s`? */
  predicate Includes(s: string, t: string)
    decreases |s|
  {
    IsPrefix(t, s) || (|s| > 0 && Includes(s[1..], t))
  }

  /** Reference definition: `t` occurs in `s` starting at index `i`. */
  ghost predicate OccursAt(s: string, t: string, i: int) {
    0 <= i && i + |t| <= |s| && s[i..i + |t|] == t
  }

  /** `Includes` agrees with the occurrence-index definition, both ways. */
  lemma {:induction false} IncludesIffOccurs(s: string, t: string)
    ensures Includes(s, t) <==> exists i :: OccursAt(s, t, i)
    decreases |s|
  {
    if IsPrefix(t, s) {
      assert OccursAt(s, t, 0);
    } else if |s| == 0 {
    } else {
      IncludesIffOccurs(s[1..], t);
      if Includes(s[1..], t) {
        var i :| OccursAt(s[1..], t, i);
        assert s[i + 1..i + 1 + |t|] == s[1..][i..i + |t|];
        assert OccursAt(s, t, i + 1);
      }
      if exists i :: OccursAt(s, t, i) {
        var i :| OccursAt(s, t, i);
        assert i != 0;
        assert s[1..][i - 1..i - 1 + |t|] == s[i..i + |t|];
        assert OccursAt(s[1..], t, i - 1);
      }
    }
  }

  /** `a.toLowerCase().includes(b.toLowerCase())`. */
  predicate IncludesIgnoringCase(s: string, t: string) {
    Includes(Lower(s), Lower(t))
  }
}
