/**
  Strings the way the C library sees them: characters up to a NUL, white space, digits.
 */
module CString {

  // ---------- the end of a string ----------

  // strlen: the number of characters before the first NUL
  function Len(s: string): (n: nat)
    ensures n <= |s|
    ensures forall i :: 0 <= i < n ==> s[i] != '\0'
    ensures n < |s| ==> s[n] == '\0'
  {
    if s == "" || s[0] == '\0' then 0 else 1 + Len(s[1..])
  }

  // The string that starts at `s`
  function CStr(s: string): (r: string)
    ensures r <= s && '\0' !in r
  {
    s[..Len(s)]
  }

  lemma LenIs(s: string, n: nat)
    requires n < |s| && s[n] == '\0' && forall i :: 0 <= i < n ==> s[i] != '\0'
    ensures Len(s) == n
  {
  }

  // strlen on a buffer
  method StrLen(s: array<char>) returns (len: nat)
    requires Len(s[..]) < s.Length
    ensures len == Len(s[..])
  {
    len := 0;
    while s[len] != '\0'
      invariant len <= Len(s[..])
      decreases Len(s[..]) - len
    {
      assert s[..][len] != '\0';
      len := len + 1;
    }
    assert s[..][len] == '\0';
  }

  // ---------- white space ----------

  // isspace
  predicate IsSpace(c: char) {
    c == ' ' || '\t' <= c <= '\r'
  }

  function SkipSpace(s: string): (r: string)
    ensures |r| <= |s|
  {
    if s != [] && IsSpace(s[0]) then SkipSpace(s[1..]) else s
  }

  // The number of characters in front that are no white space.
  function TokenLen(s: string): (n: nat)
    ensures n <= |s|
  {
    if s != [] && !IsSpace(s[0]) then 1 + TokenLen(s[1..]) else 0
  }

  // ---------- digits ----------

  function DigitValue(c: char): (d: int)
    ensures 0 <= d <= 36
  {
    if '0' <= c <= '9' then c as int - '0' as int
    else if 'a' <= c <= 'z' then c as int - 'a' as int + 10
    else if 'A' <= c <= 'Z' then c as int - 'A' as int + 10
    else 36
  }

  // The number of digits in front, and their value.
  function DigitsLen(s: string, base: int): (n: nat)
    ensures n <= |s|
  {
    if s != [] && DigitValue(s[0]) < base then 1 + DigitsLen(s[1..], base) else 0
  }

  function Value(digits: string, base: nat): nat {
    if digits == [] then 0 else Value(digits[..|digits| - 1], base) * base + DigitValue(digits[|digits| - 1])
  }

  // atoi: the value as a long, cut down to an int
  function Atoi(s: string): (v: int)
    ensures -0x8000_0000 <= v <= 0x7fff_ffff
  {
    var t := SkipSpace(s);
    var neg := t != "" && t[0] == '-';
    var u := if t != "" && (t[0] == '-' || t[0] == '+') then t[1..] else t;
    var n: int := Value(u[..DigitsLen(u, 10)], 10);
    var m := if neg then -n else n;
    var v := Clamp(m) % 0x1_0000_0000;
    if v < 0x8000_0000 then v else v - 0x1_0000_0000
  }

  function Clamp(m: int): int {
    if m > 0x7fff_ffff_ffff_ffff then 0x7fff_ffff_ffff_ffff
    else if m < -0x8000_0000_0000_0000 then -0x8000_0000_0000_0000 else m
  }

  // ---------- reading a number ----------

  lemma {:induction false} SkipSpaceOf(blanks: string, rest: string)
    requires forall i :: 0 <= i < |blanks| ==> IsSpace(blanks[i])
    requires rest == "" || !IsSpace(rest[0])
    ensures SkipSpace(blanks + rest) == rest
  {
    if blanks != "" {
      assert (blanks + rest)[1..] == blanks[1..] + rest;
      SkipSpaceOf(blanks[1..], rest);
    } else {
      assert blanks + rest == rest;
    }
  }

  lemma {:induction false} TokenLenOf(w: string, rest: string)
    requires forall k :: 0 <= k < |w| ==> !IsSpace(w[k])
    requires rest == "" || IsSpace(rest[0])
    ensures TokenLen(w + rest) == |w|
  {
    if w != "" {
      TokenLenOf(w[1..], rest);
      assert (w + rest)[1..] == w[1..] + rest;
    } else {
      assert w + rest == rest;
    }
  }

  lemma {:induction false} DigitsLenOf(w: string, rest: string, base: int)
    requires forall k :: 0 <= k < |w| ==> DigitValue(w[k]) < base
    requires rest == "" || DigitValue(rest[0]) >= base
    ensures DigitsLen(w + rest, base) == |w|
  {
    if w != "" {
      DigitsLenOf(w[1..], rest, base);
      assert (w + rest)[1..] == w[1..] + rest;
    } else {
      assert w + rest == rest;
    }
  }

  predicate IsDecimal(c: char) {
    '0' <= c <= '9'
  }

  // One or more decimal digits
  predicate IsNumber(digits: string) {
    digits != "" && forall i :: 0 <= i < |digits| ==> IsDecimal(digits[i])
  }

  // atoi reads the number behind white space and a sign, up to the first other character.
  lemma AtoiReads(blanks: string, sign: string, digits: string, tail: string)
    requires forall i :: 0 <= i < |blanks| ==> IsSpace(blanks[i])
    requires sign == "" || sign == "+" || sign == "-"
    requires IsNumber(digits) && Value(digits, 10) <= 0x7fff_ffff && (tail == "" || !IsDecimal(tail[0]))
    ensures Atoi(blanks + (sign + (digits + tail))) == if sign == "-" then -(Value(digits, 10) as int) else Value(digits, 10)
  {
    hide SkipSpace, DigitsLen, Value;
    var number := digits + tail;
    var t := sign + number;
    assert t[|sign|..] == number && number[..|digits|] == digits;
    assert t[0] == if sign == "" then digits[0] else sign[0];
    SkipSpaceOf(blanks, t);
    DigitsLenOf(digits, tail, 10);
  }

  // ... and 0 where there is none.
  lemma AtoiNothing(blanks: string, tail: string)
    requires forall i :: 0 <= i < |blanks| ==> IsSpace(blanks[i])
    requires tail == "" || !(IsSpace(tail[0]) || tail[0] == '+' || tail[0] == '-' || IsDecimal(tail[0]))
    ensures Atoi(blanks + tail) == 0
  {
    SkipSpaceOf(blanks, tail);
  }
}
