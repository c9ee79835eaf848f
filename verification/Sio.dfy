/**
  Number output that is safe in signal handlers, from lab10/csapp.c: sio_reverse, sio_ltoa, sio_putl.
 */
module Sio {
  import opened CString
  import opened Y64

  const LONG_MIN: int := -0x8000_0000_0000_0000

  function DigitChar(d: int): (c: char)
    requires 0 <= d < 36
    ensures DigitValue(c) == d && c != '\0'
  {
    if d < 10 then '0' + d as char else 'a' + (d - 10) as char
  }

  // `n / b` and `n % b`
  function Div(n: nat, b: nat): (q: nat)
    requires b >= 2
    ensures q <= n / 2 && (n < b <==> q == 0) && (q > 0 ==> q < n)
  {
    DivBound(n, b);
    n / b
  }

  function Mod(n: nat, b: nat): (r: nat)
    requires b >= 2
    ensures r < b && (n < b ==> r == n)
  {
    n % b
  }

  lemma DivBound(n: nat, b: nat)
    requires b >= 2
    ensures 0 <= n / b <= n / 2 && (n < b <==> n / b == 0)
  {
    DivMod(n, b);
    QuotientBounds(n, b, n / b, n % b);
  }

  lemma QuotientBounds(n: nat, b: nat, q: int, r: int)
    requires b >= 2 && 0 <= r < b && n == q * b + r
    ensures 0 <= q && 2 * q <= n && (n < b <==> q == 0)
  {
    if q < 0 {
      NegativeMultiple(q, b);
    } else {
      Multiple(q, b);
    }
  }

  lemma NegativeMultiple(q: int, b: nat)
    requires b >= 2 && q < 0
    ensures q * b <= 0 - b
  {
    Multiple(-q, b);
    assert q * b == -((-q) * b);
  }

  lemma {:induction false} Multiple(q: nat, b: nat)
    requires b >= 2
    ensures q * b >= 2 * q && (q >= 1 ==> q * b >= b)
  {
    if q > 0 {
      Multiple(q - 1, b);
      assert q * b == (q - 1) * b + b;
    }
  }

  lemma DivMod(n: nat, b: nat)
    requires b >= 2
    ensures n == n / b * b + n % b
  {
  }

  // The digits of `n` in base `b`, most significant first
  function Digits(n: nat, b: nat): (r: string)
    requires 2 <= b <= 36
    ensures |r| >= 1
    decreases n
  {
    if n < b then [DigitChar(n)] else Digits(Div(n, b), b) + [DigitChar(Mod(n, b))]
  }

  function Numeral(v: Long, b: nat): string
    requires 2 <= b <= 36
  {
    if v < 0 then "-" + Digits(-(v as int), b) else Digits(v, b)
  }

  // The number a numeral stands for
  function Meaning(s: string, b: nat): int {
    if s != [] && s[0] == '-' then -(Value(s[1..], b) as int) else Value(s, b)
  }

  // What is written reads back as the number, and without a leading zero.
  lemma {:induction false} DigitsRead(n: nat, b: nat)
    requires 2 <= b <= 36
    ensures Value(Digits(n, b), b) == n
    ensures Digits(n, b)[0] == '0' ==> n == 0
    ensures forall i :: 0 <= i < |Digits(n, b)| ==> 0 <= DigitValue(Digits(n, b)[i]) < b && Digits(n, b)[i] != '\0'
    decreases n
  {
    hide Mod;
    if n >= b {
      DigitsRead(Div(n, b), b);
      var high, low := Digits(Div(n, b), b), [DigitChar(Mod(n, b))];
      assert Digits(n, b) == high + low && (high + low)[..|high|] == high;
      DivModValue(n, b);
    } else {
      assert Value([DigitChar(n)], b) == Value([], b) * b + n;
    }
  }

  lemma DivModValue(n: nat, b: nat)
    requires b >= 2
    ensures Div(n, b) * b + Mod(n, b) == n
  {
    DivMod(n, b);
  }

  lemma NumeralMeans(v: Long, b: nat)
    requires 2 <= b <= 36
    ensures Meaning(Numeral(v, b), b) == v
    ensures var s := Numeral(v, b); var d := if v < 0 then s[1..] else s; d != [] && (d[0] == '0' ==> v == 0)
    ensures forall i :: 0 <= i < |Numeral(v, b)| ==> Numeral(v, b)[i] != '\0'
  {
    hide Digits, Value;
    if v < 0 {
      var digits := Digits(-(v as int), b);
      DigitsRead(-(v as int), b);
      assert ("-" + digits)[1..] == digits;
      assert forall i :: 1 <= i < |digits| + 1 ==> ("-" + digits)[i] == digits[i - 1];
    } else {
      DigitsRead(v, b);
      NoSign(Digits(v, b)[0]);
    }
  }

  lemma NoSign(c: char)
    requires DigitValue(c) < 36
    ensures c != '-'
  {
  }

  // 63 digits are enough in every base.
  lemma {:induction false} DigitsLength(n: nat, b: nat, k: nat)
    requires 2 <= b <= 36 && 1 <= k && n < Power(k)
    ensures |Digits(n, b)| <= k
    decreases k
  {
    if n >= b {
      DigitsLength(Div(n, b), b, k - 1);
    }
  }

  lemma NumeralLength(v: Long, b: nat)
    requires 2 <= b <= 36 && v != LONG_MIN
    ensures |Numeral(v, b)| <= 64
  {
    assert Power(16) == 0x1_0000;
    PowerSum(16, 16);
    PowerSum(32, 16);
    PowerSum(48, 15);
    assert Power(15) == 0x8000;
    DigitsLength(if v < 0 then -(v as int) else v, b, 63);
  }

  // ---------- in place ----------

  function Reversed(s: string): (r: string)
    ensures |r| == |s|
  {
    if s == [] then [] else Reversed(s[1..]) + [s[0]]
  }

  lemma {:induction false} ReversedAt(s: string, k: nat)
    requires k < |s|
    ensures Reversed(s)[k] == s[|s| - 1 - k]
  {
    if k < |s| - 1 {
      ReversedAt(s[1..], k);
    }
  }

  // A string of `n` characters lies in the buffer.
  ghost predicate EndsAt(s: seq<char>, n: nat) {
    n < |s| && Len(s) == n
  }

  // sio_reverse
  method SioReverse(s: array<char>, ghost n: nat)
    requires EndsAt(s[..], n)
    modifies s
    ensures s[..n] == Reversed(old(s[..n]))
    ensures forall k :: n <= k < s.Length ==> s[k] == old(s[k])
  {
    hide Len, Reversed;
    var len := StrLen(s);
    var i, j := 0, len as int - 1;
    while i < j
      invariant 0 <= i <= n && j == n - 1 - i && i <= j + 1
      invariant forall k :: 0 <= k < i || j < k < n ==> s[k] == old(s[n - 1 - k])
      invariant forall k :: i <= k <= j || n <= k < s.Length ==> s[k] == old(s[k])
    {
      s[i], s[j] := s[j], s[i];
      i, j := i + 1, j - 1;
    }
    forall k | 0 <= k < n ensures s[k] == Reversed(old(s[..n]))[k] {
      ReversedAt(old(s[..n]), k);
    }
  }

  // The digits of sio_ltoa, least significant first
  method WriteDigits(v: nat, s: array<char>, b: nat) returns (i: nat)
    requires 2 <= b <= 36 && |Digits(v, b)| <= s.Length
    modifies s
    ensures i == |Digits(v, b)| && Reversed(s[..i]) == Digits(v, b)
  {
    hide Digits, Div, Mod, Reversed;
    var w := v;
    i := 0;
    EmptyReversed(s[..0]);
    while true
      invariant i < |Digits(v, b)| && Digits(v, b) == Digits(w, b) + Reversed(s[..i])
      decreases w
    {
      DigitsStep(w, b);
      var c := Mod(w, b);
      ghost var before := s[..i];
      s[i] := if c < 10 then '0' + c as char else 'a' + (c - 10) as char;
      i := i + 1;
      assert s[..i] == before + [DigitChar(c)];
      ReversedMore(before, DigitChar(c));
      w := Div(w, b);
      if !(w > 0) {
        break;
      }
    }
  }

  // sio_ltoa
  method SioLtoa(v: Long, s: array<char>, b: nat)
    requires v != LONG_MIN && 2 <= b <= 36 && |Numeral(v, b)| < s.Length
    modifies s
    ensures EndsAt(s[..], |Numeral(v, b)|) && s[..|Numeral(v, b)|] == Numeral(v, b)
  {
    hide Digits, Meaning, Value, Reversed;
    NumeralMeans(v, b);
    var neg := v < 0;
    var i := WriteDigits(if neg then -(v as int) else v, s, b);
    if neg {
      ReversedMore(s[..i], '-');
      s[i] := '-';
      assert s[..i + 1] == s[..i] + ['-'];
      i := i + 1;
    }
    ghost var w := s[..i];
    assert Reversed(w) == Numeral(v, b);
    s[i] := '\0';
    assert s[..i] == w;
    NoNul(w);
    LenIs(s[..], i);
    SioReverse(s, i);
    assert s[..i] == Numeral(v, b);
    assert forall k :: 0 <= k < i ==> s[k] == s[..i][k];
    LenIs(s[..], i);
  }

  lemma NoNul(w: string)
    requires forall k :: 0 <= k < |w| ==> Reversed(w)[k] != '\0'
    ensures forall k :: 0 <= k < |w| ==> w[k] != '\0'
  {
    hide Reversed;
    forall k | 0 <= k < |w| ensures w[k] != '\0' {
      var i := |w| - 1 - k;
      ReversedAt(w, i);
      assert Reversed(w)[i] != '\0';
    }
  }

  lemma EmptyReversed(s: string)
    requires s == []
    ensures Reversed(s) == []
  {
  }

  lemma DigitsStep(n: nat, b: nat)
    requires 2 <= b <= 36
    ensures Digits(n, b) == (if Div(n, b) > 0 then Digits(Div(n, b), b) else []) + [DigitChar(Mod(n, b))]
  {
  }

  lemma ReversedMore(s: string, c: char)
    ensures Reversed(s + [c]) == [c] + Reversed(s)
  {
    hide Reversed;
    forall k | 0 <= k < |s| + 1 ensures Reversed(s + [c])[k] == ([c] + Reversed(s))[k] {
      ReversedAt(s + [c], k);
      if k > 0 {
        ReversedAt(s, k - 1);
      }
    }
  }

  // sio_putl; `out` is what is written
  method SioPutl(v: Long) returns (out: string)
    requires v != LONG_MIN
    ensures out == Numeral(v, 10)
  {
    NumeralLength(v, 10);
    var s := new char[128];
    SioLtoa(v, s, 10);
    var n := StrLen(s);
    out := s[..n];
  }
}
