/**
  Little-endian words in a sequence of bytes, as every program of the repository reads and writes them
  on its host: 32-bit words, 64-bit words, and what a write to one place leaves alone.
 */
module LittleEndian {

  const WORD_LIMIT: int := 0x1_0000_0000
  const ADDRESS_LIMIT: int := 0x1_0000_0000_0000_0000

  type Byte = b: int | 0 <= b < 256

  // The unsigned 32-bit word at `p`.
  function Word(m: seq<Byte>, p: int): (w: int)
    requires 0 <= p <= |m| - 4
    ensures 0 <= w < WORD_LIMIT
  {
    m[p] as int + 256 * m[p + 1] as int + 65536 * m[p + 2] as int + 16777216 * m[p + 3] as int
  }

  // The unsigned 64-bit word at `p`.
  function Address(m: seq<Byte>, p: int): (a: int)
    requires 0 <= p <= |m| - 8
    ensures 0 <= a < ADDRESS_LIMIT
  {
    Word(m, p) + WORD_LIMIT * Word(m, p + 4)
  }

  // `m'` differs from `m` at most in the cells lo..hi.
  ghost predicate SameOutside(m: seq<Byte>, m': seq<Byte>, lo: int, hi: int) {
    && |m'| == |m|
    && forall a :: 0 <= a < |m| && !(lo <= a < hi) ==> m'[a] == m[a]
  }

  lemma WordFrame(m: seq<Byte>, m': seq<Byte>, lo: int, hi: int, p: int)
    requires SameOutside(m, m', lo, hi)
    requires 0 <= p <= |m| - 4 && (p + 4 <= lo || hi <= p)
    ensures Word(m', p) == Word(m, p)
  {
    assert m'[p] == m[p] && m'[p + 1] == m[p + 1] && m'[p + 2] == m[p + 2] && m'[p + 3] == m[p + 3];
  }

  lemma WiderOutside(m: seq<Byte>, m': seq<Byte>, lo: int, hi: int, hi': int)
    requires SameOutside(m, m', lo, hi) && hi <= hi'
    ensures SameOutside(m, m', lo, hi')
  {
  }

  // ---------- the bytes of a number ----------

  function WordBytes(v: int): (s: seq<Byte>)
    requires 0 <= v < WORD_LIMIT
    ensures |s| == 4
  {
    [v % 256, v / 256 % 256, v / 256 / 256 % 256, v / 256 / 256 / 256]
  }

  function AddressBytes(v: int): (s: seq<Byte>)
    requires 0 <= v < ADDRESS_LIMIT
    ensures |s| == 8
  {
    WordBytes(v % WORD_LIMIT) + WordBytes(v / WORD_LIMIT)
  }

  lemma WordOfBytes(m: seq<Byte>, p: int, v: int)
    requires 0 <= p <= |m| - 4 && 0 <= v < WORD_LIMIT && m[p..p + 4] == WordBytes(v)
    ensures Word(m, p) == v
  {
    var s := m[p..p + 4];
    assert s[0] == m[p] && s[1] == m[p + 1] && s[2] == m[p + 2] && s[3] == m[p + 3];
  }

  lemma AddressOfBytes(m: seq<Byte>, p: int, v: int)
    requires 0 <= p <= |m| - 8 && 0 <= v < ADDRESS_LIMIT && m[p..p + 8] == AddressBytes(v)
    ensures Address(m, p) == v
  {
    hide Word, WordBytes;
    assert m[p..p + 4] == m[p..p + 8][..4] == WordBytes(v % WORD_LIMIT);
    assert m[p + 4..p + 8] == m[p..p + 8][4..] == WordBytes(v / WORD_LIMIT);
    WordOfBytes(m, p, v % WORD_LIMIT);
    WordOfBytes(m, p + 4, v / WORD_LIMIT);
  }

  // A 64-bit word depends on its own 8 bytes only.
  lemma SameAddress(m: seq<Byte>, p: int, m': seq<Byte>, p': int)
    requires 0 <= p <= |m| - 8 && 0 <= p' <= |m'| - 8 && m'[p'..p' + 8] == m[p..p + 8]
    ensures Address(m', p') == Address(m, p)
  {
    var s, s' := m[p..p + 8], m'[p'..p' + 8];
    assert s[0] == s'[0] && s[1] == s'[1] && s[2] == s'[2] && s[3] == s'[3];
    assert s[4] == s'[4] && s[5] == s'[5] && s[6] == s'[6] && s[7] == s'[7];
  }

  lemma DigitsOfWord(d0: Byte, d1: Byte, d2: Byte, d3: Byte)
    ensures var v := d0 as int + 256 * d1 as int + 65536 * d2 as int + 16777216 * d3 as int;
            0 <= v < WORD_LIMIT && WordBytes(v) == [d0, d1, d2, d3]
  {
    var v := d0 as int + 256 * d1 as int + 65536 * d2 as int + 16777216 * d3 as int;
    assert v / 256 == d1 as int + 256 * d2 as int + 65536 * d3 as int;
    assert v / 256 / 256 == d2 as int + 256 * d3 as int;
  }

  lemma BytesOfWord(m: seq<Byte>, p: int)
    requires 0 <= p <= |m| - 4
    ensures m[p..p + 4] == WordBytes(Word(m, p))
  {
    DigitsOfWord(m[p], m[p + 1], m[p + 2], m[p + 3]);
  }

  lemma BytesOfAddress(m: seq<Byte>, p: int)
    requires 0 <= p <= |m| - 8
    ensures m[p..p + 8] == AddressBytes(Address(m, p))
  {
    hide Word, WordBytes;
    BytesOfWord(m, p);
    BytesOfWord(m, p + 4);
    assert Address(m, p) % WORD_LIMIT == Word(m, p) && Address(m, p) / WORD_LIMIT == Word(m, p + 4);
    assert m[p..p + 8] == m[p..p + 4] + m[p + 4..p + 8];
  }
}
