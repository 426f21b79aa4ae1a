/** Four-letter personality type codes: the four opposed letter pairs
    E/I, N/S, T/F, J/P, the complement ("shadow") of a code, and which
    strings are well-formed codes. */
module TypeCode {

  /** The dimension a letter belongs to: E/I is 0, N/S is 1, T/F is 2 and
      J/P is 3; any other character belongs to none. */
  function Dimension(c: char): (d: int)
    ensures -1 <= d < 4
  {
    if c == 'E' || c == 'I' then 0
    else if c == 'N' || c == 'S' then 1
    else if c == 'T' || c == 'F' then 2
    else if c == 'J' || c == 'P' then 3
    else -1
  }

  predicate IsLetter(c: char) {
    Dimension(c) >= 0
  }

  /** The opposite letter of the same dimension; characters that are no
      dimension letter are returned unchanged (App.tsx:66-76). */
  function ComplementLetter(c: char): (r: char)
    ensures IsLetter(c) ==> r != c && Dimension(r) == Dimension(c)
    ensures !IsLetter(c) ==> r == c
  {
    if c == 'I' then 'E'
    else if c == 'E' then 'I'
    else if c == 'N' then 'S'
    else if c == 'S' then 'N'
    else if c == 'T' then 'F'
    else if c == 'F' then 'T'
    else if c == 'J' then 'P'
    else if c == 'P' then 'J'
    else c
  }

  /** Complementing a letter twice gives it back. */
  lemma ComplementLetterInvolution(c: char)
    ensures ComplementLetter(ComplementLetter(c)) == c
  {
  }

  /** `code.split('').map(complement).join('')`. */
  function Complement(code: string): (r: string)
    ensures |r| == |code|
    ensures forall k :: 0 <= k < |code| ==> r[k] == ComplementLetter(code[k])
  {
    seq(|code|, k requires 0 <= k < |code| => ComplementLetter(code[k]))
  }

  /** Taking the shadow of the shadow gives the original code back. */
  lemma ComplementInvolution(code: string)
    ensures Complement(Complement(code)) == code
  {
    var r := Complement(Complement(code));
    assert forall k :: 0 <= k < |code| ==> r[k] == code[k];
  }

  /** A well-formed code has one letter of each dimension, in the order
      E/I, N/S, T/F, J/P. */
  predicate ValidCode(code: string) {
    |code| == 4 && forall k :: 0 <= k < 4 ==> Dimension(code[k]) == k
  }

  /** The shadow of a well-formed code is well-formed and differs from it
      at every position. */
  lemma ComplementValid(code: string)
    requires ValidCode(code)
    ensures ValidCode(Complement(code))
    ensures forall k :: 0 <= k < 4 ==> Complement(code)[k] != code[k]
  {
  }

  /** A well-formed code spelled letter by letter. */
  lemma ValidCodeLetters(code: string)
    requires ValidCode(code)
    ensures code[0] == 'E' || code[0] == 'I'
    ensures code[1] == 'N' || code[1] == 'S'
    ensures code[2] == 'T' || code[2] == 'F'
    ensures code[3] == 'J' || code[3] == 'P'
  {
    assert Dimension(code[0]) == 0;
    assert Dimension(code[1]) == 1;
    assert Dimension(code[2]) == 2;
    assert Dimension(code[3]) == 3;
  }
}
