/**
  Clustered dataset generation: centroids drawn uniformly in [-1, 1)^dim, then
  points assigned to centroids round-robin with scaled Gaussian noise, stored in
  flat row-major buffers.
 */
module ClusteredVectors {
  import opened Common
  import opened ModularArithmetic
  import opened VectorData

  // ---- flat row storage ----

  function Flatten(rows: seq<seq<real>>): seq<real> {
    if rows == [] then [] else Flatten(rows[..|rows| - 1]) + rows[|rows| - 1]
  }

  lemma {:induction false} FlattenLength(rows: seq<seq<real>>, dim: nat)
    requires forall r :: r in rows ==> |r| == dim
    ensures |Flatten(rows)| == |rows| * dim
  {
    if rows != [] {
      FlattenLength(rows[..|rows| - 1], dim);
      LastRow(|rows|, dim);
    }
  }

  lemma LastRow(n: int, dim: int)
    ensures n * dim == (n - 1) * dim + dim
  {
  }

  lemma RowEnd(i: int, n: int, dim: int)
    requires 0 <= i < n && dim >= 0
    ensures 0 <= i * dim && i * dim + dim <= n * dim
  {
    assert (n - i - 1) * dim >= 0;
    assert n * dim == i * dim + dim + (n - i - 1) * dim;
  }

  lemma SliceOfAppend<T>(a: seq<T>, b: seq<T>, lo: nat, hi: nat)
    requires lo <= hi <= |a|
    ensures (a + b)[lo..hi] == a[lo..hi] && (a + b)[|a|..|a| + |b|] == b
  {
  }

  /** Row `i` of the flat buffer is the `i`-th appended row. */
  lemma {:induction false} FlattenRow(rows: seq<seq<real>>, dim: nat, i: nat)
    requires i < |rows| && forall r :: r in rows ==> |r| == dim
    ensures 0 <= i * dim && i * dim + dim <= |Flatten(rows)|
    ensures Flatten(rows)[i * dim..i * dim + dim] == rows[i]
  {
    var n := |rows|;
    var init, last := rows[..n - 1], rows[n - 1];
    FlattenLength(rows, dim);
    FlattenLength(init, dim);
    RowEnd(i, n, dim);
    LastRow(n, dim);
    var start := i * dim;
    assert Flatten(rows) == Flatten(init) + last;
    if i < n - 1 {
      FlattenRow(init, dim, i);
      assert init[i] == rows[i];
      hide Flatten;
      SliceOfAppend(Flatten(init), last, start, start + dim);
    } else {
      hide Flatten;
      assert start == |Flatten(init)|;
      SliceOfAppend(Flatten(init), last, 0, 0);
    }
  }

  /** Contiguous rows of `dim` coordinates. */
  class VectorRows {
    var data: seq<real>
    const dim: nat

    ghost predicate Holds(rows: seq<seq<real>>)
      reads this
    {
      && (forall r :: r in rows ==> |r| == dim)
      && data == Flatten(rows)
    }

    constructor (dim: nat)
      ensures Holds([]) && this.dim == dim
    {
      this.dim := dim;
      data := [];
    }

    method Push(row: seq<real>, ghost rows: seq<seq<real>>)
      requires Holds(rows) && |row| == dim
      modifies this
      ensures Holds(rows + [row])
    {
      data := data + row;
      assert (rows + [row])[..|rows|] == rows;
    }

    method Row(index: nat, ghost rows: seq<seq<real>>) returns (r: seq<real>)
      requires Holds(rows) && index < |rows|
      ensures r == rows[index]
    {
      FlattenRow(rows, dim, index);
      var start := index * dim;
      r := data[start..start + dim];
    }

    method Len(ghost rows: seq<seq<real>>) returns (n: nat)
      requires Holds(rows)
      ensures n == if dim == 0 then 0 else |rows|
    {
      if dim == 0 {
        return 0;
      }
      FlattenLength(rows, dim);
      ModIsUnique(|data|, |rows|, 0, dim);
      n := |data| / dim;
    }
  }

  // ---- the dataset as a function of its reproducibility key ----

  /** Clusters actually used: the requested count, capped by the number of points. */
  function EffectiveClusters(n: nat, k: nat): (r: nat)
    ensures n == 0 ==> r == k
    ensures n > 0 ==> r <= n && r <= k && (r == n || r == k)
  {
    if n == 0 then k else if k < n then k else n
  }

  /** Centroid coordinate `m` in draw order. */
  function CentroidCoordinate(seed: U64, m: nat): real {
    -1.0 + (1.0 - -1.0) * Uniform(After(m + 1, seed))
  }

  function CentroidRow(seed: U64, dim: nat, c: nat): (r: seq<real>)
    ensures |r| == dim
  {
    seq(dim, j requires 0 <= j < dim => CentroidCoordinate(seed, c * dim + j))
  }

  function CentroidRows(seed: U64, dim: nat, k: nat): (r: seq<seq<real>>)
    ensures |r| == k && forall row :: row in r ==> |row| == dim
  {
    seq(k, c requires 0 <= c < k => CentroidRow(seed, dim, c))
  }

  /** The generator state after `m` Gaussian samples. */
  ghost function NoiseState(start: U64, m: nat): U64 {
    if m == 0 then start else GaussianEnd(NoiseState(start, m - 1))
  }

  ghost function Noise(seed: U64, k: nat, dim: nat, mul: real -> real, m: nat): real {
    GaussianSample(NoiseState(After(k * dim, seed), m), mul)
  }

  ghost function PointRow(seed: U64, dim: nat, k: nat, sigma: real, mul: real -> real, i: nat): (r: seq<real>)
    requires k > 0
    ensures |r| == dim
  {
    var c := CentroidRow(seed, dim, i % k);
    seq(dim, j requires 0 <= j < dim => c[j] + sigma * Noise(seed, k, dim, mul, i * dim + j))
  }

  ghost function PointRows(seed: U64, dim: nat, k: nat, sigma: real, mul: real -> real, n: nat): (r: seq<seq<real>>)
    requires k > 0
    ensures |r| == n && forall row :: row in r ==> |row| == dim
  {
    seq(n, i requires 0 <= i < n => PointRow(seed, dim, k, sigma, mul, i))
  }

  datatype Dataset = Dataset(vectors: VectorRows, centroids: VectorRows)

  method DrawCentroid(rng: Lcg, dim: nat, ghost seed: U64, ghost c: nat) returns (point: seq<real>)
    requires rng.state == After(c * dim, seed)
    modifies rng
    ensures rng.state == After((c + 1) * dim, seed)
    ensures point == CentroidRow(seed, dim, c)
  {
    hide After, Uniform;
    point := [];
    var j := 0;
    while j < dim
      invariant 0 <= j <= dim && |point| == j
      invariant rng.state == After(c * dim + j, seed)
      invariant forall i :: 0 <= i < j ==> point[i] == CentroidCoordinate(seed, c * dim + i)
    {
      AfterNext(c * dim + j, seed);
      var x := rng.TryNextRange(-1.0, 1.0);
      point := point + [x.value];
      j := j + 1;
    }
    LastRow(c + 1, dim);
  }

  method DrawPoint(rng: Lcg, centroid: seq<real>, sigma: real, mul: real -> real,
                   ghost start: U64, ghost i: nat) returns (point: seq<real>)
    requires rng.state == NoiseState(start, i * |centroid|)
    modifies rng
    ensures rng.state == NoiseState(start, (i + 1) * |centroid|)
    ensures |point| == |centroid|
    ensures forall j :: 0 <= j < |point| ==>
              point[j] == centroid[j] + sigma * GaussianSample(NoiseState(start, i * |centroid| + j), mul)
  {
    hide GaussianSample, GaussianEnd;
    point := [];
    ghost var dim := |centroid|;
    var j := 0;
    while j < |centroid|
      invariant 0 <= j <= |centroid| && |point| == j
      invariant rng.state == NoiseState(start, i * dim + j)
      invariant forall l :: 0 <= l < j ==>
                  point[l] == centroid[l] + sigma * GaussianSample(NoiseState(start, i * dim + l), mul)
    {
      var g := rng.NextGaussian(mul);
      point := point + [centroid[j] + sigma * g];
      j := j + 1;
    }
    LastRow(i + 1, dim);
  }

  method DrawCentroids(rng: Lcg, dim: nat, k: nat) returns (centroids: VectorRows)
    modifies rng
    ensures fresh(centroids) && centroids.dim == dim
    ensures rng.state == After(k * dim, old(rng.state))
    ensures centroids.Holds(CentroidRows(old(rng.state), dim, k))
  {
    hide After, CentroidRow, Flatten;
    ghost var seed := rng.state;
    AfterZero(seed);
    centroids := new VectorRows(dim);
    ghost var rows: seq<seq<real>> := [];
    var c := 0;
    while c < k
      invariant 0 <= c <= k && centroids.dim == dim && fresh(centroids)
      invariant rng.state == After(c * dim, seed)
      invariant rows == CentroidRows(seed, dim, c) && centroids.Holds(rows)
    {
      var point := DrawCentroid(rng, dim, seed, c);
      centroids.Push(point, rows);
      rows := rows + [point];
      c := c + 1;
      assert rows == CentroidRows(seed, dim, c);
    }
  }

  lemma RowIsPoint(seed: U64, dim: nat, k: nat, sigma: real, mul: real -> real, i: nat, row: seq<real>)
    requires k > 0 && |row| == dim
    requires forall j :: 0 <= j < dim ==>
               row[j] == CentroidRow(seed, dim, i % k)[j] + sigma * GaussianSample(NoiseState(After(k * dim, seed), i * dim + j), mul)
    ensures row == PointRow(seed, dim, k, sigma, mul, i)
  {
    hide NoiseState, After, CentroidRow, GaussianSample;
    forall j | 0 <= j < dim ensures row[j] == PointRow(seed, dim, k, sigma, mul, i)[j] {
      assert Noise(seed, k, dim, mul, i * dim + j) == GaussianSample(NoiseState(After(k * dim, seed), i * dim + j), mul);
    }
  }

  lemma PointRowsNext(seed: U64, dim: nat, k: nat, sigma: real, mul: real -> real, n: nat)
    requires k > 0
    ensures PointRows(seed, dim, k, sigma, mul, n) + [PointRow(seed, dim, k, sigma, mul, n)]
         == PointRows(seed, dim, k, sigma, mul, n + 1)
  {
    hide PointRow;
  }

  /** The generator state before point `i`. */
  ghost function StateAt(seed: U64, dim: nat, k: nat, i: nat): U64 {
    NoiseState(After(k * dim, seed), i * dim)
  }

  /** One turn of the point loop: the round-robin centroid and the noise around it. */
  method DrawNext(rng: Lcg, centroids: VectorRows, k: nat, sigma: real, mul: real -> real, i: nat, ghost seed: U64)
    returns (point: seq<real>)
    requires k > 0 && centroids.Holds(CentroidRows(seed, centroids.dim, k))
    requires rng.state == StateAt(seed, centroids.dim, k, i)
    modifies rng
    ensures rng.state == StateAt(seed, centroids.dim, k, i + 1)
    ensures point == PointRow(seed, centroids.dim, k, sigma, mul, i)
  {
    hide NoiseState, After, CentroidRow, GaussianSample, Flatten, PointRow;
    ghost var rows := CentroidRows(seed, centroids.dim, k);
    var centroid := centroids.Row(i % k, rows);
    point := DrawPoint(rng, centroid, sigma, mul, After(k * centroids.dim, seed), i);
    RowIsPoint(seed, centroids.dim, k, sigma, mul, i, point);
  }

  method DrawPoints(rng: Lcg, centroids: VectorRows, n: nat, k: nat, sigma: real, mul: real -> real, ghost seed: U64)
    returns (vectors: VectorRows)
    requires k > 0 && centroids.Holds(CentroidRows(seed, centroids.dim, k))
    requires rng.state == After(k * centroids.dim, seed)
    modifies rng
    ensures fresh(vectors) && vectors.dim == centroids.dim
    ensures vectors.Holds(PointRows(seed, centroids.dim, k, sigma, mul, n))
  {
    ghost var dim := centroids.dim;
    NoiseZero(rng.state);
    assert rng.state == StateAt(seed, dim, k, 0);
    assert PointRows(seed, dim, k, sigma, mul, 0) == [];
    hide StateAt, After, CentroidRows, Flatten, PointRow, PointRows;
    vectors := new VectorRows(centroids.dim);
    var i := 0;
    while i < n
      invariant 0 <= i <= n && vectors.dim == dim && fresh(vectors)
      invariant rng.state == StateAt(seed, dim, k, i)
      invariant vectors.Holds(PointRows(seed, dim, k, sigma, mul, i))
    {
      var point := DrawNext(rng, centroids, k, sigma, mul, i, seed);
      vectors.Push(point, PointRows(seed, dim, k, sigma, mul, i));
      PointRowsNext(seed, dim, k, sigma, mul, i);
      i := i + 1;
    }
  }

  /**
    `None` models the panic on `k_clusters == 0`, `dim == 0` or a negative `sigma`;
    otherwise the rows are a function of `(n, dim, k_clusters, sigma, seed)`.
   */
  method Generate(n: nat, dim: nat, k: nat, sigma: real, seed: U64, mul: real -> real)
    returns (r: Option<Dataset>)
    ensures r.None? <==> k == 0 || dim == 0 || sigma < 0.0
    ensures r.Some? ==> r.value.centroids.Holds(CentroidRows(seed, dim, EffectiveClusters(n, k)))
    ensures r.Some? ==>
              r.value.vectors.Holds(if n == 0 then [] else PointRows(seed, dim, EffectiveClusters(n, k), sigma, mul, n))
  {
    if k == 0 || dim == 0 || sigma < 0.0 {
      return None;
    }
    hide After, CentroidRows, PointRows, Flatten;
    var kEff := EffectiveClusters(n, k);
    var rng := new Lcg(seed);
    var centroids := DrawCentroids(rng, dim, kEff);
    if n == 0 {
      var none := new VectorRows(dim);
      return Some(Dataset(none, centroids));
    }
    var vectors := DrawPoints(rng, centroids, n, kEff, sigma, mul, seed);
    r := Some(Dataset(vectors, centroids));
  }

  lemma NoiseZero(start: U64)
    ensures NoiseState(start, 0) == start
  {
  }

  // ---- properties of the construction ----

  /** How many of the first `n` points are assigned to centroid `c`. */
  function Members(n: nat, k: nat, c: nat): nat
    requires k > 0
  {
    if n == 0 then 0 else Members(n - 1, k, c) + if (n - 1) % k == c then 1 else 0
  }

  lemma DivideZero(k: nat)
    requires k > 0
    ensures 0 / k == 0 && 0 % k == 0
  {
  }

  /** Quotient and remainder of consecutive numbers. */
  lemma DivideNext(n: nat, k: nat)
    requires n > 0 && k > 0
    ensures var q, r := (n - 1) / k, (n - 1) % k;
            if r + 1 < k then n / k == q && n % k == r + 1 else n / k == q + 1 && n % k == 0 && r == k - 1
  {
    var q, r := (n - 1) / k, (n - 1) % k;
    if r + 1 < k {
      ModIsUnique(n, q, r + 1, k);
    } else {
      LastRow(q + 1, k);
      ModIsUnique(n, q + 1, 0, k);
    }
  }

  /** The exact cluster size after `n` round-robin assignments. */
  lemma {:induction false} MembersExact(n: nat, k: nat, c: nat)
    requires c < k
    ensures Members(n, k, c) == n / k + if c < n % k then 1 else 0
  {
    DivideZero(k);
    if n > 0 {
      MembersExact(n - 1, k, c);
      DivideNext(n, k);
    }
  }

  /** Cluster sizes are balanced within one, and no generated centroid is left unused. */
  lemma ClustersBalanced(n: nat, k: nat, c1: nat, c2: nat)
    requires n > 0 && k > 0
    requires c1 < EffectiveClusters(n, k) && c2 < EffectiveClusters(n, k)
    ensures var m := EffectiveClusters(n, k);
            && Members(n, m, c1) <= Members(n, m, c2) + 1
            && Members(n, m, c1) >= 1
  {
    var m := EffectiveClusters(n, k);
    MembersExact(n, m, c1);
    MembersExact(n, m, c2);
    assert n / m >= 1 by {
      assert n == (n / m) * m + n % m;
    }
  }

  /** Zero noise reproduces the assigned centroid exactly. */
  lemma ZeroSigmaCopiesCentroids(seed: U64, dim: nat, k: nat, mul: real -> real, i: nat)
    requires k > 0
    ensures PointRow(seed, dim, k, 0.0, mul, i) == CentroidRow(seed, dim, i % k)
  {
  }

  /** Asking for more points with the same cluster count keeps every earlier point. */
  lemma MorePointsKeepPrefix(seed: U64, dim: nat, k: nat, sigma: real, mul: real -> real, n: nat, more: nat)
    requires 0 < k <= n <= more
    ensures EffectiveClusters(n, k) == EffectiveClusters(more, k)
    ensures PointRows(seed, dim, EffectiveClusters(n, k), sigma, mul, n)
         <= PointRows(seed, dim, EffectiveClusters(more, k), sigma, mul, more)
  {
  }
}
