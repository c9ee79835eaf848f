/**
  The K-best sampler of lab7/fcyc.c: it keeps the smallest samples in order while they come in.
 */
module Fcyc {

  // ---------- what is to be kept ----------

  ghost predicate Ascending(v: seq<real>) {
    forall i, j :: 0 <= i < j < |v| ==> v[i] <= v[j]
  }

  // `x` put into `v` behind everything that is not larger
  function Insert(v: seq<real>, x: real): (r: seq<real>)
    ensures |r| == |v| + 1
  {
    if v == [] || v[|v| - 1] <= x then v + [x] else Insert(v[..|v| - 1], x) + [v[|v| - 1]]
  }

  // All samples in order
  function Sort(samples: seq<real>): (r: seq<real>)
    ensures |r| == |samples|
  {
    if samples == [] then [] else Insert(Sort(samples[..|samples| - 1]), samples[|samples| - 1])
  }

  // The `k` smallest samples in order, or all of them if there are fewer
  function Smallest(samples: seq<real>, k: nat): seq<real> {
    if |samples| < k then Sort(samples) else Sort(samples)[..k]
  }

  lemma {:induction false} InsertKeeps(v: seq<real>, x: real)
    requires Ascending(v)
    ensures Ascending(Insert(v, x)) && multiset(Insert(v, x)) == multiset(v) + multiset{x}
  {
    if v == [] || v[|v| - 1] <= x {
      AppendKeeps(v, x);
    } else {
      var w, last := v[..|v| - 1], v[|v| - 1];
      InsertKeeps(w, x);
      assert v == w + [last];
      BoundedBy(Insert(w, x), w, x, last);
      AppendKeeps(Insert(w, x), last);
    }
  }

  lemma AppendKeeps(v: seq<real>, x: real)
    requires Ascending(v) && forall i :: 0 <= i < |v| ==> v[i] <= x
    ensures Ascending(v + [x]) && multiset(v + [x]) == multiset(v) + multiset{x}
  {
  }

  lemma BoundedBy(v: seq<real>, w: seq<real>, x: real, bound: real)
    requires multiset(v) == multiset(w) + multiset{x} && x <= bound && forall i :: 0 <= i < |w| ==> w[i] <= bound
    ensures forall i :: 0 <= i < |v| ==> v[i] <= bound
  {
    forall i | 0 <= i < |v| ensures v[i] <= bound {
      assert v[i] in multiset(v);
      if v[i] != x {
        assert v[i] in multiset(w);
      }
    }
  }

  // Sorting permutes the samples into ascending order.
  lemma {:induction false} SortSorts(samples: seq<real>)
    ensures Ascending(Sort(samples)) && multiset(Sort(samples)) == multiset(samples)
  {
    if samples != [] {
      var n := |samples| - 1;
      SortSorts(samples[..n]);
      InsertKeeps(Sort(samples[..n]), samples[n]);
      assert samples == samples[..n] + [samples[n]];
    }
  }

  // Every sample that is not kept is at least as large as every one that is.
  lemma SmallestAreSmallest(samples: seq<real>, k: nat)
    ensures var v := Smallest(samples, k);
            && Ascending(v) && |v| == (if |samples| < k then |samples| else k)
            && multiset(v) <= multiset(samples)
            && forall x, y :: x in multiset(samples) - multiset(v) && y in v ==> y <= x
  {
    hide Sort;
    SortSorts(samples);
    if |samples| >= k {
      Parts(Sort(samples), k);
    }
  }

  lemma Parts(s: seq<real>, k: nat)
    requires Ascending(s) && k <= |s|
    ensures multiset(s[..k]) <= multiset(s)
    ensures forall x, y :: x in multiset(s) - multiset(s[..k]) && y in s[..k] ==> y <= x
  {
    assert s == s[..k] + s[k..];
    assert multiset(s) - multiset(s[..k]) == multiset(s[k..]);
    forall x, y | x in multiset(s[k..]) && y in s[..k] ensures y <= x {
      assert x in s[k..];
    }
  }

  // Nothing beyond the `k` smallest is needed to add a sample.
  lemma {:induction false} InsertTake(v: seq<real>, x: real, k: nat)
    requires Ascending(v) && 1 <= k <= |v|
    ensures Insert(v, x)[..k] == if x < v[k - 1] then Insert(v[..k - 1], x) else v[..k]
  {
    var n := |v|;
    if v[n - 1] > x && k < n {
      InsertTake(v[..n - 1], x, k);
      assert v[..n - 1][..k] == v[..k] && v[..n - 1][..k - 1] == v[..k - 1];
    }
  }

  lemma {:induction false} InsertAt(v: seq<real>, x: real, pos: nat)
    requires pos <= |v| && (pos > 0 ==> v[pos - 1] <= x) && forall i :: pos <= i < |v| ==> v[i] > x
    ensures Insert(v, x) == v[..pos] + [x] + v[pos..]
  {
    if pos < |v| {
      var w := v[..|v| - 1];
      InsertAt(w, x, pos);
      assert w[..pos] == v[..pos] && v[pos..] == w[pos..] + [v[|v| - 1]];
    }
  }

  // One more sample
  lemma SmallestMore(samples: seq<real>, x: real, k: nat)
    requires k >= 1
    ensures var v := Smallest(samples, k);
            && |v| == (if |samples| < k then |samples| else k)
            && Smallest(samples + [x], k) ==
               if |samples| < k then Insert(v, x) else if x < v[k - 1] then Insert(v[..k - 1], x) else v
  {
    hide Sort, Insert, Ascending;
    SortSorts(samples);
    SortMore(samples, x);
    var s := Sort(samples);
    if |samples| >= k {
      InsertTake(s, x, k);
      assert s[..k][..k - 1] == s[..k - 1];
    } else if |samples| == k - 1 {
      assert Insert(s, x)[..k] == Insert(s, x);
    }
  }

  lemma SortMore(samples: seq<real>, x: real)
    ensures Sort(samples + [x]) == Insert(Sort(samples), x)
  {
    hide Insert;
    assert (samples + [x])[..|samples|] == samples;
  }

  // The stopping rule: the `k` best lie within the tolerance.
  predicate Converged(samples: seq<real>, k: nat, epsilon: real)
    requires k >= 1
  {
    |samples| >= k && (1.0 + epsilon) * Smallest(samples, k)[0] >= Smallest(samples, k)[k - 1]
  }

  predicate IsMinimum(x: real, samples: seq<real>) {
    x in samples && forall i :: 0 <= i < |samples| ==> x <= samples[i]
  }

  lemma FirstIsMinimum(samples: seq<real>, k: nat)
    requires k >= 1 && samples != []
    ensures IsMinimum(Smallest(samples, k)[0], samples)
  {
    SortSorts(samples);
    var s := Sort(samples);
    assert s[0] in multiset(samples);
    forall i | 0 <= i < |samples| ensures s[0] <= samples[i] {
      assert samples[i] in multiset(s);
    }
  }

  // How many samples are no larger than `bound`
  function Within(samples: seq<real>, bound: real): (n: nat)
    ensures n <= |samples|
  {
    if samples == [] then 0
    else Within(samples[..|samples| - 1], bound) + if samples[|samples| - 1] <= bound then 1 else 0
  }

  lemma {:induction false} InsertWithin(v: seq<real>, x: real, bound: real)
    ensures Within(Insert(v, x), bound) == Within(v, bound) + if x <= bound then 1 else 0
  {
    if v == [] || v[|v| - 1] <= x {
      assert (v + [x])[..|v|] == v;
    } else {
      var w, last := v[..|v| - 1], v[|v| - 1];
      InsertWithin(w, x, bound);
      assert (Insert(w, x) + [last])[..|v|] == Insert(w, x);
    }
  }

  lemma {:induction false} SortWithin(samples: seq<real>, bound: real)
    ensures Within(Sort(samples), bound) == Within(samples, bound)
  {
    hide Insert;
    if samples != [] {
      var n := |samples| - 1;
      SortWithin(samples[..n], bound);
      InsertWithin(Sort(samples[..n]), samples[n], bound);
    }
  }

  lemma {:induction false} AscendingWithin(v: seq<real>, bound: real, k: nat)
    requires Ascending(v) && 1 <= k <= |v|
    ensures v[k - 1] <= bound <==> Within(v, bound) >= k
  {
    var w := v[..|v| - 1];
    if k < |v| {
      AscendingWithin(w, bound, k);
    } else if |v| > 1 && v[|v| - 1] <= bound {
      AscendingWithin(w, bound, k - 1);
    }
  }

  // It lets fcyc stop exactly when at least `k` of the samples are within the tolerance of the minimum.
  lemma ConvergedMeans(samples: seq<real>, k: nat, epsilon: real, minimum: real)
    requires k >= 1 && IsMinimum(minimum, samples)
    ensures Converged(samples, k, epsilon) <==> Within(samples, (1.0 + epsilon) * minimum) >= k
  {
    hide Sort, Within, Ascending, IsMinimum;
    var bound := (1.0 + epsilon) * minimum;
    SortSorts(samples);
    SortWithin(samples, bound);
    if |samples| >= k {
      var v := Smallest(samples, k);
      assert v[k - 1] == Sort(samples)[k - 1];
      SomeSample(samples, minimum);
      FirstIsMinimum(samples, k);
      OneMinimum(samples, v[0], minimum);
      AscendingWithin(Sort(samples), bound, k);
    }
  }

  lemma SomeSample(samples: seq<real>, x: real)
    requires IsMinimum(x, samples)
    ensures samples != []
  {
  }

  lemma OneMinimum(samples: seq<real>, x: real, y: real)
    requires IsMinimum(x, samples) && IsMinimum(y, samples)
    ensures x == y
  {
  }

  // ---------- the sampler ----------

  class Sampler {
    var kbest: nat
    var maxsamples: int
    var epsilon: real
    var values: array<real>
    var samplecount: nat
    ghost var samples: seq<real>

    constructor (kbest: nat, maxsamples: int, epsilon: real)
      requires kbest >= 1
      ensures Valid() && fresh(values) && samples == []
      ensures this.kbest == kbest && this.maxsamples == maxsamples && this.epsilon == epsilon
    {
      this.kbest, this.maxsamples, this.epsilon := kbest, maxsamples, epsilon;
      values := new real[kbest](_ => 0.0);
      samplecount, samples := 0, [];
      new;
      assert values[..0] == [];
    }

    // The array holds the smallest of the samples seen so far, in order.
    ghost predicate Valid()
      reads this, values
    {
      && 1 <= kbest == values.Length
      && samplecount == |samples|
      && values[..if samplecount < kbest then samplecount else kbest] == Smallest(samples, kbest)
    }

    // init_sampler
    method InitSampler()
      requires kbest >= 1
      modifies this`values, this`samplecount, this`samples
      ensures Valid() && samples == [] && fresh(values)
    {
      values := new real[kbest](_ => 0.0);
      samplecount, samples := 0, [];
      assert values[..0] == [];
    }

    // The insertion sort of add_sample: values[pos] moves down to its place.
    method SiftDown(start: nat, ghost w: seq<real>)
      requires start < values.Length && |w| == start && values[..start] == w
      modifies values
      ensures values[..start + 1] == Insert(w, old(values[start]))
      ensures forall i :: start < i < values.Length ==> values[i] == old(values[i])
    {
      hide Insert;
      var pos := start;
      ghost var x := values[start];
      while pos > 0 && values[pos - 1] > values[pos]
        invariant 0 <= pos <= start && values[pos] == x
        invariant forall i :: 0 <= i < pos ==> values[i] == w[i]
        invariant forall i :: pos <= i < start ==> values[i + 1] == w[i] > x
        invariant forall i :: start < i < values.Length ==> values[i] == old(values[i])
      {
        values[pos - 1], values[pos] := values[pos], values[pos - 1];
        pos := pos - 1;
      }
      InsertAt(w, x, pos);
      InPlace(values[..start + 1], w, x, pos);
    }

    static lemma InPlace(v: seq<real>, w: seq<real>, x: real, pos: nat)
      requires pos <= |w| && |v| == |w| + 1 && v[pos] == x
      requires (forall i :: 0 <= i < pos ==> v[i] == w[i]) && (forall i :: pos <= i < |w| ==> v[i + 1] == w[i])
      ensures v == w[..pos] + [x] + w[pos..]
    {
    }

    // add_sample
    method AddSample(val: real)
      requires Valid()
      modifies this`samplecount, this`samples, values
      ensures Valid() && samples == old(samples) + [val]
    {
      hide Sort, Smallest, Insert;
      ghost var v := Smallest(samples, kbest);
      SmallestMore(samples, val, kbest);
      if samplecount < kbest {
        values[samplecount] := val;
        SiftDown(samplecount, v);
      } else if val < values[kbest - 1] {
        values[kbest - 1] := val;
        SiftDown(kbest - 1, v[..kbest - 1]);
      }
      samplecount := samplecount + 1;
      samples := samples + [val];
    }

    // has_converged
    method HasConverged() returns (b: bool)
      requires Valid()
      ensures b == Converged(samples, kbest, epsilon)
    {
      b := samplecount >= kbest && (1.0 + epsilon) * values[0] >= values[kbest - 1];
      assert samplecount >= kbest ==>
          values[..kbest][0] == values[0] && values[..kbest][kbest - 1] == values[kbest - 1];
    }

    // fcyc, where `cycles(i)` is the time that run number `i` of the function takes
    method Fcyc(cycles: nat -> real) returns (result: real)
      requires kbest >= 1
      modifies this`values, this`samplecount, this`samples
      ensures 1 <= |samples| <= (if maxsamples < 1 then 1 else maxsamples)
      ensures forall i :: 0 <= i < |samples| ==> samples[i] == cycles(i)
      ensures IsMinimum(result, samples)
      ensures Converged(samples, kbest, epsilon) || |samples| >= maxsamples
      ensures forall n :: 1 <= n < |samples| ==> !Converged(samples[..n], kbest, epsilon)
    {
      hide Smallest, Converged;
      InitSampler();
      AddSample(cycles(samplecount));
      var converged := HasConverged();
      while !converged && samplecount < maxsamples
        invariant Valid() && fresh(values) && 1 <= samplecount <= (if maxsamples < 1 then 1 else maxsamples)
        invariant forall i :: 0 <= i < |samples| ==> samples[i] == cycles(i)
        invariant converged == Converged(samples, kbest, epsilon)
        invariant forall n :: 1 <= n < |samples| ==> !Converged(samples[..n], kbest, epsilon)
      {
        ghost var before := samples;
        AddSample(cycles(samplecount));
        converged := HasConverged();
        forall n | 1 <= n < |samples| ensures !Converged(samples[..n], kbest, epsilon) {
          assert samples[..n] == if n < |before| then before[..n] else before;
        }
      }
      result := values[0];
      FirstValue();
    }

    lemma FirstValue()
      requires Valid() && samples != []
      ensures IsMinimum(values[0], samples)
    {
      FirstIsMinimum(samples, kbest);
      assert values[0] == values[..if samplecount < kbest then samplecount else kbest][0];
    }
  }
}
