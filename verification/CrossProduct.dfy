/**
 The jobs of a scattered step: dotproduct, flat cross product and nested cross product
 (`dotproduct_scatter`, `_flat_crossproduct_scatter`, `crossproduct_size`,
 `nested_crossproduct_scatter`).
 */
module CrossProduct {
  import opened Values
  import opened Strings

  /** Every scattered input is present and is a list. */
  predicate Scatterable(job: Object, keys: seq<string>) {
    forall i | 0 <= i < |keys| :: keys[i] in job && job[keys[i]].Array?
  }

  function Len(job: Object, key: string): nat
    requires key in job && job[key].Array?
  {
    |job[key].elems|
  }

  /** The job order with one scattered input replaced by one of its elements. */
  function Narrow(job: Object, key: string, i: nat): Object
    requires key in job && job[key].Array? && i < Len(job, key)
  {
    job[key := job[key].elems[i]]
  }

  function Product(job: Object, keys: seq<string>): nat
    requires Scatterable(job, keys)
  {
    if keys == [] then 1 else Len(job, keys[0]) * Product(job, keys[1..])
  }

  // ---------------------------------------------------------------- mixed-radix positions

  lemma {:induction false} BlocksIncrease(p: nat, a: nat, b: nat)
    requires a < b
    ensures a * p + p <= b * p
  {
    if a + 1 < b { BlocksIncrease(p, a, b - 1); }
    assert b * p == (b - 1) * p + p;
  }

  lemma LaterBlock(p: nat, a: nat, r: nat, b: nat, s: nat)
    requires a < b && r < p
    ensures a * p + r < b * p + s
  {
    BlocksIncrease(p, a, b);
  }

  lemma DivMod(j: nat, p: nat)
    requires p > 0
    ensures j % p < p && j / p >= 0 && j == (j / p) * p + j % p
  {}

  /** Splitting an index into a block and a position in the block. */
  lemma PositionBound(n: nat, p: nat, j: nat)
    requires j < n * p
    ensures p > 0 && 0 <= j / p < n && 0 <= j % p < p
  {
    assert p > 0;
    DivMod(j, p);
    if n < j / p {
      LaterBlock(p, n, 0, j / p, j % p);
    }
  }

  /** Position `d` of the row-major index `j`: the element of `keys[d]` used by job `j`. */
  function Digit(job: Object, keys: seq<string>, d: nat, j: nat): nat
    requires Scatterable(job, keys) && d < |keys| && j < Product(job, keys)
    ensures Digit(job, keys, d, j) < Len(job, keys[d])
  {
    PositionBound(Len(job, keys[0]), Product(job, keys[1..]), j);
    if d == 0 then j / Product(job, keys[1..])
    else Digit(job, keys[1..], d - 1, j % Product(job, keys[1..]))
  }

  lemma BlocksUnique(p: nat, a: nat, r: nat, b: nat, s: nat)
    requires r < p && s < p && a * p + r == b * p + s
    ensures a == b && r == s
  {
    if a < b { LaterBlock(p, a, r, b, s); }
    if b < a { LaterBlock(p, b, s, a, r); }
  }

  lemma BlockPosition(p: nat, b: nat, r: nat)
    requires r < p
    ensures (b * p + r) / p == b && (b * p + r) % p == r
  {
    var j := b * p + r;
    DivMod(j, p);
    BlocksUnique(p, j / p, j % p, b, r);
  }

  lemma {:induction false} SameProduct(a: Object, b: Object, keys: seq<string>)
    requires Scatterable(a, keys) && forall i :: 0 <= i < |keys| ==> keys[i] in b && b[keys[i]] == a[keys[i]]
    ensures Scatterable(b, keys) && Product(b, keys) == Product(a, keys)
  {
    if keys != [] { SameProduct(a, b, keys[1..]); }
  }

  /** Narrowing the first key leaves the extents of the others alone. */
  lemma ProductNarrow(job: Object, keys: seq<string>, i: nat)
    requires keys != [] && Scatterable(job, keys) && Distinct(keys) && i < Len(job, keys[0])
    ensures var narrowed := Narrow(job, keys[0], i);
            Scatterable(narrowed, keys[1..]) && Distinct(keys[1..])
            && Product(narrowed, keys[1..]) == Product(job, keys[1..])
  {
    SameProduct(job, Narrow(job, keys[0], i), keys[1..]);
  }

  /** The job at row-major index `j`: each scattered input replaced by the element at its digit. */
  function JobAt(job: Object, keys: seq<string>, j: nat): Object
    requires Scatterable(job, keys) && Distinct(keys) && j < Product(job, keys)
    decreases |keys|
  {
    if keys == [] then job
    else
      PositionBound(Len(job, keys[0]), Product(job, keys[1..]), j);
      var narrowed := Narrow(job, keys[0], j / Product(job, keys[1..]));
      ProductNarrow(job, keys, j / Product(job, keys[1..]));
      JobAt(narrowed, keys[1..], j % Product(job, keys[1..]))
  }

  lemma {:induction false} SameDigit(a: Object, b: Object, keys: seq<string>, d: nat, j: nat)
    requires Scatterable(a, keys) && forall i :: 0 <= i < |keys| ==> keys[i] in b && b[keys[i]] == a[keys[i]]
    requires Scatterable(b, keys) && d < |keys| && j < Product(a, keys) && j < Product(b, keys)
    ensures Digit(a, keys, d, j) == Digit(b, keys, d, j)
  {
    SameProduct(a, b, keys[1..]);
    PositionBound(Len(a, keys[0]), Product(a, keys[1..]), j);
    if d > 0 { SameDigit(a, b, keys[1..], d - 1, j % Product(a, keys[1..])); }
  }

  /** The job at index `j` takes, for every scattered key, the element at its digit; the rest is kept. */
  lemma {:induction false} JobAtDigits(job: Object, keys: seq<string>, j: nat)
    requires Scatterable(job, keys) && Distinct(keys) && j < Product(job, keys)
    ensures var at := JobAt(job, keys, j);
            && at.Keys == job.Keys
            && (forall d :: 0 <= d < |keys| ==> at[keys[d]] == job[keys[d]].elems[Digit(job, keys, d, j)])
            && (forall k :: k in job && k !in keys ==> at[k] == job[k])
    decreases |keys|
  {
    if keys != [] {
      var p := Product(job, keys[1..]);
      PositionBound(Len(job, keys[0]), p, j);
      ProductNarrow(job, keys, j / p);
      var narrowed := Narrow(job, keys[0], j / p);
      JobAtDigits(narrowed, keys[1..], j % p);
      forall d | 0 < d < |keys|
        ensures JobAt(job, keys, j)[keys[d]] == job[keys[d]].elems[Digit(job, keys, d, j)]
      {
        assert keys[1..][d - 1] == keys[d];
        SameDigit(job, narrowed, keys[1..], d - 1, j % p);
      }
    }
  }

  /** Row-major value of a sequence of digits. */
  function RowMajor(job: Object, keys: seq<string>, digits: seq<nat>): nat
    requires Scatterable(job, keys) && |digits| == |keys|
  {
    if keys == [] then 0 else digits[0] * Product(job, keys[1..]) + RowMajor(job, keys[1..], digits[1..])
  }

  function Digits(job: Object, keys: seq<string>, j: nat): seq<nat>
    requires Scatterable(job, keys) && j < Product(job, keys)
  {
    seq(|keys|, d requires 0 <= d < |keys| => Digit(job, keys, d, j))
  }

  /** The digits of `j` are its mixed-radix representation. */
  lemma {:induction false} DigitsOfIndex(job: Object, keys: seq<string>, j: nat)
    requires Scatterable(job, keys) && j < Product(job, keys)
    ensures RowMajor(job, keys, Digits(job, keys, j)) == j
  {
    if keys != [] {
      var p := Product(job, keys[1..]);
      PositionBound(Len(job, keys[0]), p, j);
      DivMod(j, p);
      DigitsOfIndex(job, keys[1..], j % p);
      assert Digits(job, keys, j)[1..] == Digits(job, keys[1..], j % p);
    }
  }

  // ---------------------------------------------------------------- the flat cross product

  /** All jobs of the cross product, block by block. */
  function FlatJobs(job: Object, keys: seq<string>): seq<Object>
    requires Scatterable(job, keys) && Distinct(keys)
    decreases |keys|, 0, 0
  {
    if keys == [] then [job] else FlatBlocks(job, keys, Len(job, keys[0]))
  }

  function FlatBlocks(job: Object, keys: seq<string>, n: nat): seq<Object>
    requires keys != [] && Scatterable(job, keys) && Distinct(keys) && n <= Len(job, keys[0])
    decreases |keys| - 1, 1, n
  {
    if n == 0 then []
    else
      ProductNarrow(job, keys, n - 1);
      FlatBlocks(job, keys, n - 1) + FlatJobs(Narrow(job, keys[0], n - 1), keys[1..])
  }

  lemma {:induction false} FlatBlocksExact(job: Object, keys: seq<string>, n: nat)
    requires keys != [] && Scatterable(job, keys) && Distinct(keys) && n <= Len(job, keys[0])
    ensures |FlatBlocks(job, keys, n)| == n * Product(job, keys[1..])
    ensures forall j :: 0 <= j < |FlatBlocks(job, keys, n)| && j < Product(job, keys) ==>
              FlatBlocks(job, keys, n)[j] == JobAt(job, keys, j)
    decreases |keys| - 1, 1, n
  {
    var p := Product(job, keys[1..]);
    if n > 0 {
      FlatBlocksExact(job, keys, n - 1);
      ProductNarrow(job, keys, n - 1);
      FlatJobsExact(Narrow(job, keys[0], n - 1), keys[1..]);
      assert n * p == (n - 1) * p + p;
      forall j | (n - 1) * p <= j < n * p && j < Product(job, keys)
        ensures FlatBlocks(job, keys, n)[j] == JobAt(job, keys, j)
      {
        BlockPosition(p, n - 1, j - (n - 1) * p);
      }
    }
  }

  /** The flat cross product lists exactly `Product` jobs, in row-major order. */
  lemma {:induction false} FlatJobsExact(job: Object, keys: seq<string>)
    requires Scatterable(job, keys) && Distinct(keys)
    ensures |FlatJobs(job, keys)| == Product(job, keys)
    ensures forall j :: 0 <= j < Product(job, keys) ==> FlatJobs(job, keys)[j] == JobAt(job, keys, j)
    decreases |keys|, 0, 0
  {
    if keys != [] { FlatBlocksExact(job, keys, Len(job, keys[0])); }
  }

  /** `crossproduct_size`, which adds up the size of the rest once per element of the first key. */
  method CrossproductSize(job: Object, keys: seq<string>) returns (size: nat)
    requires keys != [] && Scatterable(job, keys)
    ensures size == Product(job, keys)
    decreases |keys|
  {
    if |keys| == 1 { return Len(job, keys[0]); }
    size := 0;
    for i := 0 to Len(job, keys[0])
      invariant size == i * Product(job, keys[1..])
    {
      var rest := CrossproductSize(job, keys[1..]);
      size := size + rest;
    }
  }

  /** A scattered job and the index under which it reports; no job if it is skipped. */
  datatype Placement = Placement(index: nat, job: Option<Object>)

  function Placements(jobs: seq<Object>, start: nat, eval: Object -> Option<Object>): seq<Placement> {
    seq(|jobs|, j requires 0 <= j < |jobs| => Placement(start + j, eval(jobs[j])))
  }

  method FlatScatterFrom(job: Object, keys: seq<string>, start: nat, eval: Object -> Option<Object>)
    returns (steps: seq<Placement>, put: nat)
    requires keys != [] && Scatterable(job, keys) && Distinct(keys)
    ensures steps == Placements(FlatJobs(job, keys), start, eval) && put == start + |steps|
    decreases |keys|
  {
    steps, put := [], start;
    for index := 0 to Len(job, keys[0])
      invariant steps == Placements(FlatBlocks(job, keys, index), start, eval) && put == start + |steps|
    {
      var sjob := Narrow(job, keys[0], index);
      ProductNarrow(job, keys, index);
      if |keys| == 1 {
        steps := steps + [Placement(put, eval(sjob))];
        put := put + 1;
      } else {
        var add, _ := FlatScatterFrom(sjob, keys[1..], put, eval);
        put := put + |add|;
        steps := steps + add;
      }
    }
  }

  /**
   `_flat_crossproduct_scatter`: the jobs report under the indices 0, ..., product - 1 in
   row-major order, and job `j` has the mixed-radix elements of `j`.
   */
  method FlatScatter(job: Object, keys: seq<string>, eval: Object -> Option<Object>)
    returns (steps: seq<Placement>)
    requires keys != [] && Scatterable(job, keys) && Distinct(keys)
    ensures |steps| == Product(job, keys)
    ensures forall j :: 0 <= j < |steps| ==> steps[j] == Placement(j, eval(JobAt(job, keys, j)))
  {
    var put;
    steps, put := FlatScatterFrom(job, keys, 0, eval);
    FlatJobsExact(job, keys);
  }

  // ---------------------------------------------------------------- the dot product

  /** The job order with every scattered input replaced by its element `i`. */
  function DotJob(job: Object, keys: seq<string>, i: nat): Object
    requires Scatterable(job, keys) && forall d :: 0 <= d < |keys| ==> i < |job[keys[d]].elems|
  {
    map k | k in job :: if k in keys then job[k].elems[i] else job[k]
  }

  /** Every scattered key has element `i` of its list, every other key its value. */
  ghost predicate DotRule(job: Object, keys: seq<string>, i: nat, at: Object) {
    && at.Keys == job.Keys
    && (forall k :: k in keys && k in job && job[k].Array? && i < |job[k].elems| ==> at[k] == job[k].elems[i])
    && (forall k :: k in job && k !in keys ==> at[k] == job[k])
  }

  ghost predicate SameLengths(job: Object, keys: seq<string>)
    requires Scatterable(job, keys)
  {
    forall c, d :: 0 <= c < |keys| && 0 <= d < |keys| ==> Len(job, keys[c]) == Len(job, keys[d])
  }

  /** `dotproduct_scatter`: refused exactly when the lists differ in length, else one job per position. */
  method DotScatter(job: Object, keys: seq<string>, eval: Object -> Option<Object>)
    returns (steps: Option<seq<Placement>>)
    requires keys != [] && Scatterable(job, keys)
    ensures steps.Some? <==> SameLengths(job, keys)
    ensures steps.Some? ==>
              && |steps.value| == Len(job, keys[0])
              && forall i :: 0 <= i < |steps.value| ==>
                   && steps.value[i] == Placement(i, eval(DotJob(job, keys, i)))
                   && DotRule(job, keys, i, DotJob(job, keys, i))
  {
    var jobl := Len(job, keys[0]);
    for d := 0 to |keys|
      invariant forall c :: 0 <= c < d ==> Len(job, keys[c]) == jobl
    {
      if Len(job, keys[d]) != jobl { return None; }
    }
    var out := [];
    for index := 0 to jobl
      invariant |out| == index
      invariant forall i :: 0 <= i < index ==> out[i] == Placement(i, eval(DotJob(job, keys, i)))
    {
      var sjob := job;
      for d := 0 to |keys|
        invariant sjob.Keys == job.Keys
        invariant forall k :: k in job ==> sjob[k] == if k in keys[..d] then job[k].elems[index] else job[k]
      {
        sjob := sjob[keys[d] := job[keys[d]].elems[index]];
      }
      assert keys[..|keys|] == keys;
      assert sjob == DotJob(job, keys, index);
      out := out + [Placement(index, eval(sjob))];
    }
    steps := Some(out);
  }

  // ---------------------------------------------------------------- the nested cross product

  /** The nested result of a step whose value for one job is `f`. */
  function NestedResult(job: Object, keys: seq<string>, f: Object -> Value): Value
    requires Scatterable(job, keys) && Distinct(keys)
    decreases |keys|
  {
    if keys == [] then f(job)
    else Array(seq(Len(job, keys[0]), i requires 0 <= i < Len(job, keys[0]) =>
           ProductNarrow(job, keys, i); NestedResult(Narrow(job, keys[0], i), keys[1..], f)))
  }

  function Lens(job: Object, keys: seq<string>): seq<nat>
    requires Scatterable(job, keys)
  {
    seq(|keys|, d requires 0 <= d < |keys| => Len(job, keys[d]))
  }

  /** Lists of the given lengths, level by level. */
  predicate ListsOf(v: Value, lens: seq<nat>) {
    lens != [] ==>
      && v.Array? && |v.elems| == lens[0]
      && forall i | 0 <= i < |v.elems| :: ListsOf(v.elems[i], lens[1..])
  }

  /** `w` stands in the nested lists at the place the path leads to. */
  predicate StandsAt(v: Value, path: seq<nat>, w: Value) {
    if path == [] then v == w
    else v.Array? && path[0] < |v.elems| && StandsAt(v.elems[path[0]], path[1..], w)
  }

  lemma {:induction false} NestedLists(job: Object, keys: seq<string>, f: Object -> Value)
    requires Scatterable(job, keys) && Distinct(keys)
    ensures ListsOf(NestedResult(job, keys, f), Lens(job, keys))
    decreases |keys|
  {
    if keys != [] {
      var v := NestedResult(job, keys, f);
      forall i | 0 <= i < |v.elems| ensures ListsOf(v.elems[i], Lens(job, keys)[1..]) {
        ProductNarrow(job, keys, i);
        NestedLists(Narrow(job, keys[0], i), keys[1..], f);
        assert Lens(Narrow(job, keys[0], i), keys[1..]) == Lens(job, keys)[1..];
      }
    }
  }

  /** The digits behind the first one are the digits of the position in the block. */
  lemma NarrowDigits(job: Object, keys: seq<string>, j: nat)
    requires keys != [] && Scatterable(job, keys) && Distinct(keys) && j < Product(job, keys)
    ensures var p := Product(job, keys[1..]);
            && p > 0 && 0 <= j / p < Len(job, keys[0])
            && (ProductNarrow(job, keys, j / p);
                var narrowed := Narrow(job, keys[0], j / p);
                && 0 <= j % p < Product(narrowed, keys[1..])
                && Digits(job, keys, j)[1..] == Digits(narrowed, keys[1..], j % p))
  {
    var p := Product(job, keys[1..]);
    PositionBound(Len(job, keys[0]), p, j);
    ProductNarrow(job, keys, j / p);
    var narrowed := Narrow(job, keys[0], j / p);
    forall d | 0 <= d < |keys| - 1
      ensures Digits(job, keys, j)[1..][d] == Digits(narrowed, keys[1..], j % p)[d]
    {
      SameDigit(job, narrowed, keys[1..], d, j % p);
    }
  }

  lemma {:induction false} NestedElement(job: Object, keys: seq<string>, f: Object -> Value, j: nat)
    requires Scatterable(job, keys) && Distinct(keys) && j < Product(job, keys)
    ensures StandsAt(NestedResult(job, keys, f), Digits(job, keys, j), f(JobAt(job, keys, j)))
    decreases |keys|
  {
    if keys != [] {
      var p := Product(job, keys[1..]);
      PositionBound(Len(job, keys[0]), p, j);
      ProductNarrow(job, keys, j / p);
      var narrowed := Narrow(job, keys[0], j / p);
      NestedElement(narrowed, keys[1..], f, j % p);
      NarrowDigits(job, keys, j);
    }
  }

  /**
   The nested result: as many levels of lists as keys, each level as long as its key's value, and
   at the digits of index `j` the value of job `j`.
   */
  lemma NestedByDigits(job: Object, keys: seq<string>, f: Object -> Value)
    requires Scatterable(job, keys) && Distinct(keys)
    ensures ListsOf(NestedResult(job, keys, f), Lens(job, keys))
    ensures forall j: nat :: j < Product(job, keys) ==>
              StandsAt(NestedResult(job, keys, f), Digits(job, keys, j), f(JobAt(job, keys, j)))
  {
    NestedLists(job, keys, f);
    forall j: nat | j < Product(job, keys)
      ensures StandsAt(NestedResult(job, keys, f), Digits(job, keys, j), f(JobAt(job, keys, j)))
    {
      NestedElement(job, keys, f, j);
    }
  }

  /** Removing `levels` levels of nesting below the outermost list. */
  function FlattenLevels(v: Value, levels: nat): Value
    decreases levels, 0
  {
    if levels == 0 || !v.Array? then v else Array(Joined(v.elems, levels - 1, |v.elems|))
  }

  /** The elements of the first `k` lists, each already flattened by `levels`. */
  function Joined(vs: seq<Value>, levels: nat, k: nat): seq<Value>
    requires k <= |vs|
    decreases levels, k + 1
  {
    if k == 0 then []
    else
      var last := FlattenLevels(vs[k - 1], levels);
      Joined(vs, levels, k - 1) + (if last.Array? then last.elems else [last])
  }

  function Applied(jobs: seq<Object>, f: Object -> Value): seq<Value> {
    seq(|jobs|, j requires 0 <= j < |jobs| => f(jobs[j]))
  }

  lemma {:induction false} JoinedBlocks(job: Object, keys: seq<string>, f: Object -> Value, n: nat)
    requires |keys| > 1 && Scatterable(job, keys) && Distinct(keys) && n <= Len(job, keys[0])
    ensures Joined(NestedResult(job, keys, f).elems, |keys| - 2, n) == Applied(FlatBlocks(job, keys, n), f)
    decreases |keys| - 1, 1, n
  {
    if n > 0 {
      JoinedBlocks(job, keys, f, n - 1);
      ProductNarrow(job, keys, n - 1);
      FlattenedFrom(Narrow(job, keys[0], n - 1), keys[1..], f);
    }
  }

  lemma {:induction false} SingleKey(job: Object, keys: seq<string>, f: Object -> Value, n: nat)
    requires |keys| == 1 && Scatterable(job, keys) && n <= Len(job, keys[0])
    ensures Applied(FlatBlocks(job, keys, n), f) == NestedResult(job, keys, f).elems[..n]
  {
    if n > 0 { SingleKey(job, keys, f, n - 1); }
  }

  lemma {:induction false} FlattenedFrom(job: Object, keys: seq<string>, f: Object -> Value)
    requires keys != [] && Scatterable(job, keys) && Distinct(keys)
    ensures FlattenLevels(NestedResult(job, keys, f), |keys| - 1) == Array(Applied(FlatJobs(job, keys), f))
    decreases |keys|, 0, 0
  {
    if |keys| == 1 {
      SingleKey(job, keys, f, Len(job, keys[0]));
    } else {
      JoinedBlocks(job, keys, f, Len(job, keys[0]));
    }
  }

  /** The values of all jobs, in row-major order. */
  function FlatValues(job: Object, keys: seq<string>, f: Object -> Value): seq<Value>
    requires Scatterable(job, keys) && Distinct(keys)
  {
    seq(Product(job, keys), j requires 0 <= j < Product(job, keys) => f(JobAt(job, keys, j)))
  }

  /** Flattening the nested result by one level less than there are keys gives the flat result. */
  lemma NestedFlattensToFlat(job: Object, keys: seq<string>, f: Object -> Value)
    requires keys != [] && Scatterable(job, keys) && Distinct(keys)
    ensures FlattenLevels(NestedResult(job, keys, f), |keys| - 1) == Array(FlatValues(job, keys, f))
  {
    FlattenedFrom(job, keys, f);
    FlatJobsExact(job, keys);
    assert Applied(FlatJobs(job, keys), f) == FlatValues(job, keys, f);
  }
}
