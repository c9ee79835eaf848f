/**
  Which address every line and every label of a Y64 program has, and which programs have none.
 */
module Y64Layout {
  import opened Wrappers
  import opened Y64
  import opened Y64Laws
  import opened Y64Syntax
  import opened Y64Source

  // ---------- lines one by one ----------

  // Line `j` defines `name`.
  predicate Defines(text: string, name: string) {
    Parse(text).Line? && Parse(text).def == Some(name)
  }

  function Statement(text: string): Option<Stmt> {
    if Parse(text).Line? then Parse(text).stmt else None
  }

  // The address behind the first `n` lines: the end of the last of them that has an address
  function Behind(entries: seq<Entry>, n: nat): Long
    requires n <= |entries|
  {
    if n == 0 then 0
    else if entries[n - 1].At? then Wrap(entries[n - 1].addr as int + EntryExtent(entries[n - 1]))
    else Behind(entries, n - 1)
  }

  predicate IsMove(stmt: Option<Stmt>) {
    stmt.Some? && (stmt.value.Pos? || stmt.value.Align?)
  }

  // What one more line adds
  lemma OneLine(src: Source, text: string)
    requires Lay(src, text).Some? && src.here == Behind(src.entries, |src.entries|)
    ensures var src' := Lay(src, text).value; var n := |src.entries|;
            && |src'.entries| == n + 1 && src'.entries[..n] == src.entries
            && (match Parse(text)
                case Malformed => false
                case Nothing => src'.entries[n] == Comment && src'.labels == src.labels
                case Line(def, stmt) =>
                  && src'.entries[n].At? && src'.entries[n].stmt == stmt
                  && (stmt.Some? ==> Place(src.here, stmt.value) == Some(src'.entries[n].addr))
                  && (stmt.None? ==> src'.entries[n].addr == src.here)
                  && (def.Some? ==> def.value !in src.labels)
                  && src'.labels == if def.Some? then src.labels[def.value := src.here] else src.labels)
            && src'.here == Behind(src'.entries, n + 1)
  {
    hide Parse, Place, Extent;
    var src' := Lay(src, text).value;
    SameBehind(src.entries, src'.entries, |src.entries|);
    AtRest(src.here);
  }

  lemma AtRest(v: Long)
    ensures Wrap(v) == v
  {
  }

  lemma {:induction false} SameBehind(entries: seq<Entry>, entries': seq<Entry>, n: nat)
    requires n <= |entries| && n <= |entries'| && entries[..n] == entries'[..n]
    ensures Behind(entries, n) == Behind(entries', n)
  {
    if n > 0 {
      assert entries[n - 1] == entries[..n][n - 1] == entries'[n - 1];
      assert entries[..n - 1] == entries[..n][..n - 1] == entries'[..n - 1];
      SameBehind(entries, entries', n - 1);
    }
  }

  // ---------- the whole program ----------

  // Laying out the first lines is the beginning of laying out all of them.
  lemma {:induction false} LaidSoFar(texts: seq<string>, m: nat, n: nat)
    requires m <= n <= |texts| && LayAll(texts, n).Some?
    ensures LayAll(texts, m).Some?
    ensures var before, src := LayAll(texts, m).value, LayAll(texts, n).value;
            && |before.entries| == m && |src.entries| == n && src.entries[..m] == before.entries
            && before.here == Behind(before.entries, m)
            && forall name :: name in before.labels ==> name in src.labels && src.labels[name] == before.labels[name]
    decreases n
  {
    hide Lay, Parse, Behind;
    if n == 0 {
      NothingBehind(LayAll(texts, 0).value);
    } else {
      LaidSoFar(texts, n - 1, n - 1);
      var prev, src := LayAll(texts, n - 1).value, LayAll(texts, n).value;
      OneLine(prev, texts[n - 1]);
      if m < n {
        LaidSoFar(texts, m, n - 1);
        assert src.entries[..m] == src.entries[..n - 1][..m];
      }
    }
  }

  lemma NothingBehind(src: Source)
    requires src == EMPTY
    ensures src.here == Behind(src.entries, 0)
  {
  }

  // Every line has the statement that is written there, at the address behind the lines above it unless it is
  // a .pos or .align; and a label stands for the address behind the lines above it.
  lemma LineAddress(texts: seq<string>, src: Source, j: nat)
    requires LayAll(texts, |texts|) == Some(src) && j < |texts|
    ensures |src.entries| == |texts|
    ensures src.entries[j] == Comment <==> Parse(texts[j]) == Nothing
    ensures src.entries[j].At? ==> Parse(texts[j]).Line? && src.entries[j].stmt == Statement(texts[j])
    ensures src.entries[j].At? && !IsMove(Statement(texts[j])) ==> src.entries[j].addr == Behind(src.entries, j)
    ensures src.entries[j].At? && IsMove(Statement(texts[j])) ==>
              match Statement(texts[j]).value
              case Pos(v) => src.entries[j].addr == v
              case Align(v) => v != 0 && src.entries[j].addr == Aligned(Behind(src.entries, j), v)
    ensures forall name :: Defines(texts[j], name) ==> name in src.labels && src.labels[name] == Behind(src.entries, j)
  {
    hide Lay, Parse, Behind, Aligned;
    LaidSoFar(texts, j, |texts|);
    LaidSoFar(texts, j + 1, |texts|);
    var before, after := LayAll(texts, j).value, LayAll(texts, j + 1).value;
    OneLine(before, texts[j]);
    assert src.entries[j] == src.entries[..j + 1][j] == after.entries[j];
    SameBehind(before.entries, src.entries, j);
  }

  // In particular a label in front of a statement, or alone on its line, is the address of that line.
  lemma LabelAddress(texts: seq<string>, src: Source, j: nat, name: string)
    requires LayAll(texts, |texts|) == Some(src) && j < |texts| && Defines(texts[j], name) && !IsMove(Statement(texts[j]))
    ensures j < |src.entries| && src.entries[j].At? && name in src.labels && src.labels[name] == src.entries[j].addr
  {
    hide Parse, Behind, LayAll;
    LineAddress(texts, src, j);
  }

  // A statement starts where the one above it ends, and the first one at 0.
  lemma NextAddress(texts: seq<string>, src: Source, j: nat, k: nat)
    requires LayAll(texts, |texts|) == Some(src) && j < k < |texts|
    requires Parse(texts[j]).Line? && Parse(texts[k]).Line? && !IsMove(Statement(texts[k]))
    requires forall i :: j < i < k ==> Parse(texts[i]) == Nothing
    ensures |src.entries| == |texts| && src.entries[j].At? && src.entries[k].At?
    ensures var end := src.entries[j].addr as int + EntryExtent(src.entries[j]);
            IsLong(end) ==> src.entries[k].addr == end
  {
    hide Parse, Behind, LayAll, EntryExtent;
    LineAddress(texts, src, j);
    LineAddress(texts, src, k);
    forall i | j < i < k ensures src.entries[i] == Comment {
      LineAddress(texts, src, i);
    }
    BehindComments(src.entries, j, k);
    var _ := Wraps(src.entries[j].addr as int + EntryExtent(src.entries[j]));
  }

  lemma {:induction false} BehindComments(entries: seq<Entry>, j: nat, k: nat)
    requires j < k <= |entries| && entries[j].At? && forall i :: j < i < k ==> entries[i] == Comment
    ensures Behind(entries, k) == Wrap(entries[j].addr as int + EntryExtent(entries[j]))
    decreases k
  {
    hide EntryExtent, Wrap;
    if k > j + 1 {
      BehindComments(entries, j, k - 1);
    }
  }

  lemma FirstAddress(texts: seq<string>, src: Source, k: nat)
    requires LayAll(texts, |texts|) == Some(src) && k < |texts|
    requires Parse(texts[k]).Line? && !IsMove(Statement(texts[k])) && forall i :: 0 <= i < k ==> Parse(texts[i]) == Nothing
    ensures k < |src.entries| && src.entries[k].At? && src.entries[k].addr == 0
  {
    hide Parse, Behind, LayAll;
    LineAddress(texts, src, k);
    forall i | 0 <= i < k ensures src.entries[i] == Comment {
      LineAddress(texts, src, i);
    }
    BehindNothing(src.entries, k);
  }

  lemma {:induction false} BehindNothing(entries: seq<Entry>, k: nat)
    requires k <= |entries| && forall i :: 0 <= i < k ==> entries[i] == Comment
    ensures Behind(entries, k) == 0
  {
    if k > 0 {
      BehindNothing(entries, k - 1);
    }
  }

  // ---------- .align ----------

  predicate IsMultiple(x: int, v: int)
    requires v != 0
  {
    x % v == 0
  }

  // The least multiple of `v` that is not below `here`
  ghost predicate IsLeastMultiple(x: int, here: int, v: int)
    requires v > 0
  {
    IsMultiple(x, v) && here <= x < here + v
  }

  // .align goes there, unless that is no long, or the address is below 0, where C's remainder is negative, and
  // no multiple itself; then it goes one multiple too far.
  lemma AlignedIs(here: Long, v: Long, least: int)
    requires v > 0 && IsLeastMultiple(least, here, v)
    ensures Aligned(here, v) == least <==> least <= LONG_MAX && (here >= 0 || IsMultiple(here, v))
    ensures here < 0 && !IsMultiple(here, v) && least + v <= LONG_MAX ==> Aligned(here, v) == least + v
  {
    hide Wrap;
    var r := Rem(here, v);
    RemIs(here, v);
    var x := if r > 0 then here + (v - r) else here - r;
    MultipleOf(here, v, r);
    OneMultiple(x, least, v);
    var _ := Wraps(here as int + (v as int - r));
  }

  // Two multiples less than `v` apart are the same.
  lemma OneMultiple(x: int, y: int, v: int)
    requires v > 0 && x % v == 0 && y % v == 0 && -v < x - y < v
    ensures x == y
  {
    SameQuotient(x / v - y / v, v, x - y);
  }

  lemma RemIs(here: int, v: int)
    requires v > 0
    ensures -v < Rem(here, v) < v && (here - Rem(here, v)) % v == 0
    ensures (here >= 0 ==> Rem(here, v) >= 0) && (here < 0 ==> Rem(here, v) <= 0)
    ensures Rem(here, v) == 0 <==> here % v == 0
  {
    if here >= 0 {
      Divided(here, v);
      RemainderOf(here / v, v, 0);
    } else {
      var q, m := (-here) / v, (-here) % v;
      Divided(-here, v);
      Negated(q, v);
      RemainderOf(-q, v, 0);
      if m > 0 {
        RemainderOf(-q - 1, v, v - m);
      }
    }
  }

  lemma Divided(x: int, v: int)
    requires v > 0
    ensures x == x / v * v + x % v && 0 <= x % v < v
  {
  }

  lemma Negated(q: int, v: int)
    ensures (-q) * v == -(q * v) && (-q - 1) * v == -(q * v) - v
  {
  }

  lemma RemainderOf(q: int, v: int, r: int)
    requires v > 0 && 0 <= r < v
    ensures (q * v + r) % v == r
  {
    var x := q * v + r;
    SameQuotient(x / v - q, v, r - x % v);
  }

  lemma SameQuotient(d: int, v: int, e: int)
    requires v > 0 && d * v == e && -v < e < v
    ensures e == 0
  {
    if d > 0 {
      AtLeastOnce(d, v);
    } else if d < 0 {
      AtLeastOnce(-d, v);
    }
  }

  lemma {:induction false} AtLeastOnce(d: nat, v: nat)
    requires d >= 1
    ensures d * v >= v
  {
    if d > 1 {
      AtLeastOnce(d - 1, v);
      assert d * v == (d - 1) * v + v;
    }
  }

  lemma MultipleOf(here: int, v: int, r: int)
    requires v > 0 && (here - r) % v == 0
    ensures (here + (v - r)) % v == 0 && (here - r) % v == 0
  {
    var q := (here - r) / v;
    assert here + (v - r) == (q + 1) * v + 0;
    RemainderOf(q + 1, v, 0);
  }

  // ---------- labels and errors ----------

  // A name is a label of the program exactly if one of its lines defines it.
  lemma {:induction false} LabelsDefined(texts: seq<string>, n: nat, name: string)
    requires n <= |texts| && LayAll(texts, n).Some?
    ensures name in LayAll(texts, n).value.labels <==> exists j :: 0 <= j < n && Defines(texts[j], name)
  {
    hide Lay, Parse;
    if n > 0 {
      LaidSoFar(texts, n - 1, n - 1);
      LabelsDefined(texts, n - 1, name);
      OneLine(LayAll(texts, n - 1).value, texts[n - 1]);
    }
  }

  // A line that ends the assembly: it is malformed, defines a name again, or aligns to 0.
  ghost predicate InError(texts: seq<string>, j: nat)
    requires j < |texts|
  {
    || Parse(texts[j]) == Malformed
    || (exists i, name :: 0 <= i < j && Defines(texts[i], name) && Defines(texts[j], name))
    || Statement(texts[j]) == Some(Align(0))
  }

  // There is no program exactly if there is such a line.
  lemma {:induction false} LayFailsExactly(texts: seq<string>, n: nat)
    requires n <= |texts|
    ensures LayAll(texts, n) == None <==> exists j :: 0 <= j < n && InError(texts, j)
  {
    hide Lay, Parse, InError, Defines;
    if n > 0 {
      LayFailsExactly(texts, n - 1);
      if LayAll(texts, n - 1).Some? {
        LineFails(texts, n - 1);
      }
    }
  }

  lemma LineFails(texts: seq<string>, j: nat)
    requires j < |texts| && LayAll(texts, j).Some?
    ensures Lay(LayAll(texts, j).value, texts[j]) == None <==> InError(texts, j)
  {
    hide Parse, Extent, Wrap, Aligned;
    var src := LayAll(texts, j).value;
    if Parse(texts[j]).Line? && Parse(texts[j]).def.Some? {
      var name := Parse(texts[j]).def.value;
      LabelsDefined(texts, j, name);
      assert Defines(texts[j], name);
    }
  }
}
