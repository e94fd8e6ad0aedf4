/**
 * The argument checks the two GatorAVL variants make before touching the tree:
 * character classes for names and search terms, and the eight-character rule for
 * IDs. `isalpha` and `isdigit` are taken in the "C" locale (ASCII).
 */
module GatorInput {

  predicate IsAlpha(c: char) { 'A' <= c <= 'Z' || 'a' <= c <= 'z' }

  predicate IsDigit(c: char) { '0' <= c <= '9' }

  /** GatorAVL.cpp: a name may hold letters and spaces only. */
  predicate LettersOrSpaces(s: string)
  {
    forall i :: 0 <= i < |s| ==> IsAlpha(s[i]) || s[i] == ' '
  }

  /** GatorAVL_Main.cpp: a name may hold letters only. */
  predicate LettersOnly(s: string)
  {
    forall i :: 0 <= i < |s| ==> IsAlpha(s[i])
  }

  /** The character loop of GatorAVL.cpp's Insert and name Search. */
  method CheckLettersOrSpaces(s: string) returns (ok: bool)
    ensures ok <==> LettersOrSpaces(s)
  {
    var i := 0;
    while i < |s|
      invariant 0 <= i <= |s|
      invariant forall j :: 0 <= j < i ==> IsAlpha(s[j]) || s[j] == ' '
    {
      if !IsAlpha(s[i]) && s[i] != ' ' {
        return false;
      }
      i := i + 1;
    }
    return true;
  }

  /** The character loop of GatorAVL_Main.cpp's Insert and name Search. */
  method CheckLetters(s: string) returns (ok: bool)
    ensures ok <==> LettersOnly(s)
  {
    var i := 0;
    while i < |s|
      invariant 0 <= i <= |s|
      invariant forall j :: 0 <= j < i ==> IsAlpha(s[j])
    {
      if !IsAlpha(s[i]) {
        return false;
      }
      i := i + 1;
    }
    return true;
  }

  /** Length of `to_string(n)`: the number of decimal digits of n. */
  function DecimalLength(n: nat): (len: nat)
    ensures len >= 1
  {
    if n < 10 then 1 else 1 + DecimalLength(n / 10)
  }

  /** Largest ID plus one that eight decimal characters can denote. */
  const IdLimit: nat := 100000000

  /** n has at most k digits exactly when n < 10^k, for the bounds the check uses. */
  lemma {:induction false} DecimalLengthBelow(n: nat, k: nat, bound: nat)
    requires k >= 1 && bound == Pow10(k)
    ensures DecimalLength(n) <= k <==> n < bound
  {
    if k == 1 {
    } else if n >= 10 {
      DecimalLengthBelow(n / 10, k - 1, Pow10(k - 1));
    } else {
      Pow10AtLeastTen(k);
    }
  }

  function Pow10(k: nat): nat
  {
    if k == 0 then 1 else 10 * Pow10(k - 1)
  }

  lemma {:induction false} Pow10AtLeastTen(k: nat)
    requires k >= 1
    ensures Pow10(k) >= 10
  {
    if k > 1 {
      Pow10AtLeastTen(k - 1);
    }
  }

  /**
   * GatorAVL_Main.cpp accepts an ID exactly when `to_string(id)` has eight
   * characters, that is exactly when 10000000 <= id < 100000000.
   */
  lemma EightDigits(n: nat)
    ensures DecimalLength(n) == 8 <==> 10000000 <= n < IdLimit
  {
    assert Pow10(7) == 10000000;
    assert Pow10(8) == 100000000;
    DecimalLengthBelow(n, 7, Pow10(7));
    DecimalLengthBelow(n, 8, Pow10(8));
  }
}
