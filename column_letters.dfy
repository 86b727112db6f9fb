/** The column-letter codec of src/sheets.py: a 0-based column position is
    written in bijective base 26 (0 -> "A", 25 -> "Z", 26 -> "AA", ...),
    the most significant letter first. */
module ColumnLetters {

  /** Every character of `s` is one of 'A'..'Z'. */
  predicate IsLetters(s: string) {
    forall i :: 0 <= i < |s| ==> 'A' <= s[i] <= 'Z'
  }

  /** The letter for one base-26 digit: chr(d + ord('A')). */
  function Digit(d: int): (c: char)
    requires 0 <= d < 26
    ensures 'A' <= c <= 'Z'
    ensures c as int - 'A' as int == d
  {
    ('A' as int + d) as char
  }

  /** The letters of column position `n`; a negative position has none. */
  function Letters(n: int): (s: string)
    ensures IsLetters(s)
    ensures |s| > 0 <==> n >= 0
  {
    if n < 0 then "" else Letters(n / 26 - 1) + [Digit(n % 26)]
  }

  /** The bijective base-26 value of a letter string ('A' = 1, ..., 'Z' = 26). */
  function Value(s: string): (v: nat)
    requires IsLetters(s)
    ensures v == 0 <==> s == []
  {
    if s == [] then 0
    else Value(s[..|s| - 1]) * 26 + (s[|s| - 1] as int - 'A' as int + 1)
  }

  /** The inverse of the codec: the column position that letter string `s` addresses. */
  function LetterToIndex(s: string): (n: int)
    requires IsLetters(s)
    ensures n >= -1
    ensures n == -1 <==> s == []
  {
    Value(s) - 1
  }

  /** The conversion loop of the source: take `index % 26` as the next letter
      to the left, continue with `index / 26 - 1` until the index is negative. */
  method ColumnIndexToLetter(index: int) returns (result: string)
    ensures result == Letters(index)
  {
    result := "";
    var i := index;
    while i >= 0
      invariant Letters(i) + result == Letters(index)
      decreases i
    {
      result := [Digit(i % 26)] + result;
      i := i / 26 - 1;
    }
  }

  lemma DivModDigit(q: int, k: int)
    requires 0 <= k < 26
    ensures (q * 26 + k) / 26 == q
    ensures (q * 26 + k) % 26 == k
  {
  }

  /** Decoding undoes encoding for every position from -1 (the empty string) up. */
  lemma {:induction false} LetterToIndexOfLetters(n: int)
    requires n >= -1
    ensures LetterToIndex(Letters(n)) == n
  {
    if n >= 0 {
      var p := n / 26 - 1;
      LetterToIndexOfLetters(p);
      var s := Letters(n);
      assert s[..|s| - 1] == Letters(p);
      assert s[|s| - 1] == Digit(n % 26);
    }
  }

  /** Encoding undoes decoding: every letter string is the letters of exactly one position. */
  lemma {:induction false} LettersOfLetterToIndex(s: string)
    requires IsLetters(s)
    ensures Letters(LetterToIndex(s)) == s
  {
    if s != [] {
      var p := s[..|s| - 1];
      var k := s[|s| - 1] as int - 'A' as int;
      LettersOfLetterToIndex(p);
      var q := Value(p);
      var n := LetterToIndex(s);
      assert n == q * 26 + k;
      DivModDigit(q, k);
      assert n / 26 - 1 == LetterToIndex(p) && n % 26 == k;
      assert Letters(n) == Letters(LetterToIndex(p)) + [Digit(k)];
      assert Digit(k) == s[|s| - 1];
      assert s == p + [s[|s| - 1]];
    }
  }

  /** Distinct positions have distinct letters. */
  lemma LettersInjective(m: int, n: int)
    requires m >= -1 && n >= -1
    requires m != n
    ensures Letters(m) != Letters(n)
  {
    LetterToIndexOfLetters(m);
    LetterToIndexOfLetters(n);
  }

  /** The examples of the source's doc comment and a few more. */
  lemma SpotValues()
    ensures Letters(0) == "A" && Letters(1) == "B" && Letters(25) == "Z"
    ensures Letters(26) == "AA" && Letters(27) == "AB" && Letters(51) == "AZ"
    ensures Letters(701) == "ZZ" && Letters(702) == "AAA"
  {
  }
}
