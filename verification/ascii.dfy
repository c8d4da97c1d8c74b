/**
  Python's Unicode character classes for `re` and `str`, restricted to code points below
  128. Every character from 128 up is treated as neither a word nor a whitespace
  character and is left alone by `Lower`; there the model departs from the loader, which
  classifies and lower-cases such characters too.
 */
module Ascii {

  predicate IsUpper(c: char) { 'A' <= c <= 'Z' }

  predicate IsLower(c: char) { 'a' <= c <= 'z' }

  predicate IsDigit(c: char) { '0' <= c <= '9' }

  predicate IsAlnum(c: char) { IsUpper(c) || IsLower(c) || IsDigit(c) }

  /** `\w`: letters, digits and the underscore. */
  predicate IsWord(c: char) { IsAlnum(c) || c == '_' }

  /** `\s`: the characters `str.isspace` accepts below 128 (tab to carriage return,
      the four information separators 0x1C-0x1F, and the space). */
  predicate IsSpace(c: char) {
    c == ' ' || 9 <= c as int <= 13 || 28 <= c as int <= 31
  }

  function ToLower(c: char): char {
    if IsUpper(c) then (c as int + 32) as char else c
  }

  /** `str.lower()` restricted to ASCII letters. */
  function Lower(s: string): string {
    seq(|s|, i requires 0 <= i < |s| => ToLower(s[i]))
  }

  /** Lowering never leaves an upper-case letter, so every letter of the result is lower case. */
  lemma LowerHasNoUpper(s: string)
    ensures forall i :: 0 <= i < |s| ==> !IsUpper(Lower(s)[i])
    ensures forall i :: 0 <= i < |s| && IsAlnum(Lower(s)[i]) ==> IsLower(Lower(s)[i]) || IsDigit(Lower(s)[i])
  {
  }

  /** A string without upper-case letters is its own lower-case form. */
  lemma LowerFixesLowerCase(s: string)
    requires forall i :: 0 <= i < |s| ==> !IsUpper(s[i])
    ensures Lower(s) == s
  {
  }
}
