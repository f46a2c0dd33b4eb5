// The mixed-radix index of metrics.c: label combinations, in whatever order their labels are given, and slot numbers
// are in one-to-one correspondence.

module MetricIndex {
  import opened Basics

  /** One label dimension: its key and the values it may take. */
  datatype Dimension = Dimension(key: string, values: seq<string>)

  datatype Label = Label(key: string, value: string)

  predicate DistinctSeq<T(==)>(s: seq<T>) { forall i, j | 0 <= i < j < |s| :: s[i] != s[j] }

  ghost predicate DistinctKeys(dims: seq<Dimension>) {
    forall i, j | 0 <= i < j < |dims| :: dims[i].key != dims[j].key
  }

  /** What registration is given: distinct keys, and for each at least one value, no value twice. */
  ghost predicate WellFormed(dims: seq<Dimension>) {
    DistinctKeys(dims) && Bounded(dims) && forall d | 0 <= d < |dims| :: DistinctSeq(dims[d].values)
  }

  predicate Bounded(dims: seq<Dimension>) { forall d | 0 <= d < |dims| :: dims[d].values != [] }

  // ----------------------------------------------------------- cardinality

  function Product(dims: seq<Dimension>): nat {
    if dims == [] then 1 else |dims[0].values| * Product(dims[1..])
  }

  const SIZE_MAX: nat := 0xFFFF_FFFF_FFFF_FFFF

  lemma {:induction false} ProductParts(a: seq<Dimension>, b: seq<Dimension>)
    ensures Product(a + b) == Product(a) * Product(b)
  {
    if a == [] {
      assert a + b == b;
    } else {
      ProductParts(a[1..], b);
      assert (a + b)[1..] == a[1..] + b;
      Assoc(|a[0].values|, Product(a[1..]), Product(b));
    }
  }

  lemma Assoc(x: int, y: int, z: int)
    ensures x * (y * z) == (x * y) * z
  {
  }

  lemma {:induction false} ProductPositive(dims: seq<Dimension>)
    requires Bounded(dims)
    ensures Product(dims) >= 1
  {
    if dims != [] {
      ProductPositive(dims[1..]);
      assert |dims[0].values| * Product(dims[1..]) >= 1 * 1 by {
        Larger(|dims[0].values|, Product(dims[1..]));
      }
    }
  }

  lemma Larger(x: nat, y: nat)
    requires x >= 1 && y >= 1
    ensures x * y >= x && x * y >= y
  {
  }

  lemma Monotone(a: nat, b: nat, p: nat)
    ensures a <= b ==> a * p <= b * p
  {
  }

  lemma Distributes(a: nat, b: nat, p: nat)
    ensures (a + b) * p == a * p + b * p
  {
  }

  lemma Overflows(card: nat, n: nat)
    requires n >= 1
    ensures card > SIZE_MAX / n <==> card * n > SIZE_MAX
  {
    QuotientBounds(SIZE_MAX, n, SIZE_MAX / n, SIZE_MAX % n, card);
  }

  lemma QuotientBounds(x: nat, n: nat, q: nat, m: nat, y: nat)
    requires m < n && x == q * n + m
    ensures y > q <==> y * n > x
  {
    Monotone(y, q, n);
    Monotone(q + 1, y, n);
    Distributes(q, 1, n);
  }

  /** The number of combinations; 0 when a dimension is unbounded or the number does not fit. */
  method ComputeCardinality(dims: seq<Dimension>) returns (card: nat)
    ensures card == if Bounded(dims) && Product(dims) <= SIZE_MAX then Product(dims) else 0
  {
    card := 1;
    for i := 0 to |dims|
      invariant Bounded(dims[..i]) && card == Product(dims[..i]) && 1 <= card <= SIZE_MAX
    {
      if dims[i].values == [] { return 0; }
      assert dims[..i + 1] == dims[..i] + [dims[i]];
      ProductParts(dims[..i], [dims[i]]);
      assert Product([dims[i]]) == |dims[i].values|;
      Overflows(card, |dims[i].values|);
      if card > SIZE_MAX / |dims[i].values| {
        if Bounded(dims) {
          assert dims == dims[..i + 1] + dims[i + 1..];
          ProductParts(dims[..i + 1], dims[i + 1..]);
          ProductPositive(dims[i + 1..]);
          Larger(Product(dims[..i + 1]), Product(dims[i + 1..]));
        }
        return 0;
      }
      Larger(card, |dims[i].values|);
      card := card * |dims[i].values|;
    }
    assert dims[..|dims|] == dims;
  }

  /** The stride of dimension d: how many combinations the later dimensions have. */
  function Stride(dims: seq<Dimension>, d: nat): nat
    requires d < |dims|
  {
    Product(dims[d + 1..])
  }

  method ComputeStrides(dims: seq<Dimension>) returns (strides: array<nat>)
    ensures fresh(strides) && strides.Length == |dims|
    ensures forall d | 0 <= d < |dims| :: strides[d] == Stride(dims, d)
  {
    strides := new nat[|dims|];
    if |dims| == 0 { return; }
    strides[|dims| - 1] := 1;
    var d := |dims| - 2;
    while d >= 0
      invariant -1 <= d <= |dims| - 2
      invariant forall e | d < e < |dims| :: strides[e] == Stride(dims, e)
    {
      assert dims[d + 1..][0] == dims[d + 1] && dims[d + 1..][1..] == dims[d + 2..];
      strides[d] := strides[d + 1] * |dims[d + 1].values|;
      d := d - 1;
    }
  }

  // ------------------------------------------------------ ordinals and index

  /** One ordinal for every dimension. */
  predicate Ordinals(dims: seq<Dimension>, v: seq<nat>) {
    |v| == |dims| && forall d | 0 <= d < |dims| :: v[d] < |dims[d].values|
  }

  function Flat(dims: seq<Dimension>, v: seq<nat>): nat
    requires |v| == |dims|
  {
    if dims == [] then 0 else v[0] * Product(dims[1..]) + Flat(dims[1..], v[1..])
  }

  /** The ordinal the decoder computes for dimension d. */
  function Digit(dims: seq<Dimension>, fi: nat, d: nat): nat
    requires Bounded(dims) && d < |dims|
  {
    ProductPositive(dims[d + 1..]);
    fi / Stride(dims, d) % |dims[d].values|
  }

  lemma {:induction false} FlatInRange(dims: seq<Dimension>, v: seq<nat>)
    requires Ordinals(dims, v)
    ensures Flat(dims, v) < Product(dims)
  {
    if dims != [] {
      FlatInRange(dims[1..], v[1..]);
      var n, p, x := |dims[0].values|, Product(dims[1..]), v[0];
      Monotone(x + 1, n, p);
      Distributes(x, 1, p);
    }
  }

  lemma QuotientOf(x: nat, p: nat, r: nat)
    requires r < p
    ensures (x * p + r) / p == x && (x * p + r) % p == r
  {
    var q := (x * p + r) / p;
    var m := (x * p + r) % p;
    assert q * p + m == x * p + r;
    Monotone(q + 1, x, p);
    Monotone(x + 1, q, p);
    Distributes(q, 1, p);
    Distributes(x, 1, p);
  }

  lemma SmallMod(x: nat, n: nat)
    requires x < n
    ensures x % n == x
  {
  }

  lemma DivAdds(b: nat, s: nat, r: nat)
    requires s >= 1
    ensures (b * s + r) / s == b + r / s && (b * s + r) % s == r % s
  {
    QuotientKnown(b, s, r, r / s, r % s);
  }

  lemma QuotientKnown(b: nat, s: nat, r: nat, q: nat, m: nat)
    requires m < s && r == q * s + m
    ensures (b * s + r) / s == b + q && (b * s + r) % s == m
  {
    Distributes(b, q, s);
    QuotientOf(b + q, s, m);
  }

  lemma Rearranged(x: nat, k: nat, n: nat, s: nat)
    ensures x * (k * (n * s)) == ((x * k) * n) * s
  {
    Assoc(x, k, n * s);
    Assoc(x * k, n, s);
  }

  /** Adding a multiple of a whole period n * s does not change the digit. */
  lemma DigitPeriodic(x: nat, k: nat, n: nat, s: nat, r: nat)
    requires n >= 1 && s >= 1
    ensures (x * (k * (n * s)) + r) / s % n == r / s % n
  {
    Rearranged(x, k, n, s);
    PeriodsDrop(x * k, (x * k) * n, x * (k * (n * s)), n, s, r);
  }

  lemma PeriodsDrop(a: nat, b: nat, c: nat, n: nat, s: nat, r: nat)
    requires n >= 1 && s >= 1 && b == a * n && c == b * s
    ensures (c + r) / s % n == r / s % n
  {
    DivAdds(b, s, r);
    DivAdds(a, n, r / s);
  }

  /** The later dimensions of dims, seen from dimension d. */
  lemma StrideSplit(dims: seq<Dimension>, d: nat)
    requires 0 < d < |dims|
    ensures Product(dims[1..]) == Product(dims[1..][..d - 1]) * (|dims[d].values| * Stride(dims, d))
    ensures dims[1..][d - 1] == dims[d] && dims[1..][d..] == dims[d + 1..]
  {
    var rest := dims[1..];
    assert rest == rest[..d - 1] + rest[d - 1..];
    ProductParts(rest[..d - 1], rest[d - 1..]);
    assert rest[d - 1..][0] == dims[d] && rest[d - 1..][1..] == dims[d + 1..];
  }

  /** The first digit is the quotient; the others are those of the remainder. */
  lemma DigitSplit(dims: seq<Dimension>, x: nat, r: nat, d: nat)
    requires Bounded(dims) && d < |dims|
    requires x < |dims[0].values| && r < Product(dims[1..])
    ensures Digit(dims, x * Product(dims[1..]) + r, d) == if d == 0 then x else Digit(dims[1..], r, d - 1)
  {
    if d == 0 {
      QuotientOf(x, Product(dims[1..]), r);
      SmallMod(x, |dims[0].values|);
    } else {
      ProductPositive(dims[d + 1..]);
      StrideSplit(dims, d);
      DigitPeriodic(x, Product(dims[1..][..d - 1]), |dims[d].values|, Stride(dims, d), r);
    }
  }

  lemma {:induction false} DigitsOfFlat(dims: seq<Dimension>, v: seq<nat>, d: nat)
    requires Bounded(dims) && Ordinals(dims, v) && d < |dims|
    ensures Digit(dims, Flat(dims, v), d) == v[d]
  {
    FlatInRange(dims[1..], v[1..]);
    DigitSplit(dims, v[0], Flat(dims[1..], v[1..]), d);
    if d > 0 {
      DigitsOfFlat(dims[1..], v[1..], d - 1);
    }
  }

  function Digits(dims: seq<Dimension>, fi: nat): (v: seq<nat>)
    requires Bounded(dims)
    ensures Ordinals(dims, v)
  {
    seq(|dims|, d requires 0 <= d < |dims| => Digit(dims, fi, d))
  }

  lemma QuotientInRange(fi: nat, n: nat, p: nat)
    requires p >= 1 && fi < n * p
    ensures fi / p < n && fi == fi / p * p + fi % p
  {
    var q := fi / p;
    assert fi == q * p + fi % p;
    Monotone(n, q, p);
  }

  lemma {:induction false} FlatOfDigits(dims: seq<Dimension>, fi: nat)
    requires Bounded(dims) && fi < Product(dims)
    ensures Flat(dims, Digits(dims, fi)) == fi
  {
    if dims != [] {
      var rest := dims[1..];
      ProductPositive(rest);
      var p := Product(rest);
      QuotientInRange(fi, |dims[0].values|, p);
      var x, r := fi / p, fi % p;
      forall d | 0 <= d < |dims|
        ensures Digit(dims, fi, d) == if d == 0 then x else Digit(rest, r, d - 1)
      {
        DigitSplit(dims, x, r, d);
      }
      assert Digits(dims, fi)[1..] == Digits(rest, r);
      FlatOfDigits(rest, r);
    }
  }

  /** Indices run in the order of the first dimension, then the second and so on: the combination that is smaller where
      two first differ has the smaller index. */
  lemma {:induction false} FlatInOrder(dims: seq<Dimension>, v: seq<nat>, w: seq<nat>, d: nat)
    requires Ordinals(dims, v) && Ordinals(dims, w) && d < |dims| && v[..d] == w[..d] && v[d] < w[d]
    ensures Flat(dims, v) < Flat(dims, w)
  {
    var p := Product(dims[1..]);
    if d == 0 {
      FlatInRange(dims[1..], v[1..]);
      Monotone(v[0] + 1, w[0], p);
      Distributes(v[0], 1, p);
    } else {
      assert v[0] == v[..d][0] == w[..d][0] == w[0];
      assert v[1..][..d - 1] == v[..d][1..] && w[1..][..d - 1] == w[..d][1..];
      FlatInOrder(dims[1..], v[1..], w[1..], d - 1);
    }
  }
}
