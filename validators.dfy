/**
 * The three class-validator rules the request bodies use.
 * `IsEmail` is not defined here: its rule is not part of this model, so every
 * validity predicate takes the email-format check as a parameter `isEmail`.
 */
module Validators {

  /** The variation selectors U+FE0E and U+FE0F, which the length count skips. */
  predicate IsPresentationSelector(ch: char) {
    ch == '\U{FE0E}' || ch == '\U{FE0F}'
  }

  /**
   * The length validator.js's isLength measures: one per code point (a surrogate pair
   * counts once, as a Dafny char does), except that variation selectors count zero.
   */
  function Length(s: string): (n: nat)
    ensures n <= |s|
    ensures n == |s| <==> forall i :: 0 <= i < |s| ==> !IsPresentationSelector(s[i])
  {
    if s == [] then 0
    else (if IsPresentationSelector(s[0]) then 0 else 1) + Length(s[1..])
  }

  /** A variation selector appended to a string leaves its length unchanged; any other character adds one. */
  lemma {:induction false} LengthAppend(s: string, ch: char)
    ensures Length(s + [ch]) == Length(s) + (if IsPresentationSelector(ch) then 0 else 1)
  {
    if s != [] {
      assert (s + [ch])[1..] == s[1..] + [ch];
      LengthAppend(s[1..], ch);
    }
  }

  /** `@MinLength(n)`: a length of at least n, as isLength counts it. */
  predicate MinLength(s: string, n: nat) {
    Length(s) >= n
  }

  /** `@IsNotEmpty()` on a string: anything but the empty string. */
  predicate IsNotEmpty(s: string) {
    s != ""
  }

  /** The minimum password length both signup and login demand. */
  const PasswordMinLength: nat := 8
}
