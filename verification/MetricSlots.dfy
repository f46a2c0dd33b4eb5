// From label sets to slots and back, and what ends up in the slots of a counter.

module MetricSlots {
  import opened Basics
  import opened MetricIndex

  // ---------------------------------------------------------- label look-up

  /** The value of the first label with this key. */
  function ValueFor(labels: seq<Label>, key: string): Option<string> {
    if labels == [] then None
    else if labels[0].key == key then Some(labels[0].value)
    else ValueFor(labels[1..], key)
  }

  /** The first position of a value. */
  function OrdinalOf(values: seq<string>, value: string): Option<nat> {
    if values == [] then None
    else if values[0] == value then Some(0)
    else match OrdinalOf(values[1..], value)
      case Some(i) => Some(i + 1)
      case None => None
  }

  function OrdinalsOf(dims: seq<Dimension>, labels: seq<Label>): Option<seq<nat>> {
    if dims == [] then Some([])
    else match ValueFor(labels, dims[0].key)
      case None => None
      case Some(value) =>
        match OrdinalOf(dims[0].values, value)
        case None => None
        case Some(i) =>
          match OrdinalsOf(dims[1..], labels)
          case None => None
          case Some(rest) => Some([i] + rest)
  }

  /** The slot of a label set, if it is one of the combinations. */
  function FlatOf(dims: seq<Dimension>, labels: seq<Label>): Option<nat> {
    if |labels| != |dims| then None
    else match OrdinalsOf(dims, labels)
      case None => None
      case Some(v) => if |v| == |dims| then Some(Flat(dims, v)) else None
  }

  /** Row fi of the labels table. */
  function LabelsOf(dims: seq<Dimension>, fi: nat): (row: seq<Label>)
    requires Bounded(dims)
    ensures |row| == |dims|
  {
    seq(|dims|, d requires 0 <= d < |dims| => Label(dims[d].key, dims[d].values[Digit(dims, fi, d)]))
  }

  lemma {:induction false} ValueForIs(labels: seq<Label>, key: string)
    ensures match ValueFor(labels, key)
      case Some(value) => Label(key, value) in labels
      case None => forall l | l in labels :: l.key != key
  {
    if labels != [] {
      ValueForIs(labels[1..], key);
      assert labels == [labels[0]] + labels[1..];
    }
  }

  lemma {:induction false} OrdinalOfIff(values: seq<string>, value: string, i: nat)
    requires DistinctSeq(values)
    ensures OrdinalOf(values, value) == Some(i) <==> i < |values| && values[i] == value
  {
    if values != [] {
      if i > 0 {
        OrdinalOfIff(values[1..], value, i - 1);
      }
    }
  }

  /** Ordinal i names the value the labels give for this dimension. */
  predicate Names(dim: Dimension, labels: seq<Label>, i: nat) {
    i < |dim.values| && ValueFor(labels, dim.key) == Some(dim.values[i])
  }

  ghost predicate AllNamed(dims: seq<Dimension>, labels: seq<Label>, v: seq<nat>) {
    |v| == |dims| && forall d | 0 <= d < |dims| :: Names(dims[d], labels, v[d])
  }

  lemma AllNamedSplit(dims: seq<Dimension>, labels: seq<Label>, v: seq<nat>)
    requires dims != [] && v != []
    ensures AllNamed(dims, labels, v) <==> Names(dims[0], labels, v[0]) && AllNamed(dims[1..], labels, v[1..])
  {
    if Names(dims[0], labels, v[0]) && AllNamed(dims[1..], labels, v[1..]) {
      forall d | 0 <= d < |dims|
        ensures Names(dims[d], labels, v[d])
      {
        assert d > 0 ==> dims[d] == dims[1..][d - 1] && v[d] == v[1..][d - 1];
      }
    }
  }

  lemma NamesIff(dim: Dimension, labels: seq<Label>, i: nat)
    requires DistinctSeq(dim.values)
    ensures Names(dim, labels, i) <==>
      ValueFor(labels, dim.key).Some? && OrdinalOf(dim.values, ValueFor(labels, dim.key).value) == Some(i)
  {
    match ValueFor(labels, dim.key)
    case Some(value) => OrdinalOfIff(dim.values, value, i);
    case None =>
  }

  lemma {:induction false} OrdinalsOfIff(dims: seq<Dimension>, labels: seq<Label>, v: seq<nat>)
    requires forall d | 0 <= d < |dims| :: DistinctSeq(dims[d].values)
    ensures OrdinalsOf(dims, labels) == Some(v) <==> AllNamed(dims, labels, v)
  {
    if dims != [] && v != [] {
      OrdinalsOfIff(dims[1..], labels, v[1..]);
      NamesIff(dims[0], labels, v[0]);
      AllNamedSplit(dims, labels, v);
      assert v == [v[0]] + v[1..];
    }
  }

  // ------------------------------------------------------------ the bijection

  lemma {:induction false} AllInSame<T>(a: seq<T>, b: seq<T>)
    requires DistinctSeq(a) && |a| == |b| && forall x | x in a :: x in b
    ensures multiset(a) == multiset(b)
  {
    forall x
      ensures multiset(a)[x] <= multiset(b)[x]
    {
      OnceEach(a, x);
      if x in a {
        assert x in multiset(b);
      }
    }
    assert multiset(a) <= multiset(b);
    assert |multiset(b) - multiset(a)| == 0;
  }

  lemma {:induction false} OnceEach<T>(a: seq<T>, x: T)
    requires DistinctSeq(a)
    ensures multiset(a)[x] <= 1
  {
    if a != [] {
      OnceEach(a[1..], x);
      assert a == [a[0]] + a[1..];
      if x == a[0] {
        assert x !in a[1..];
      }
    }
  }

  /** The row is found label by label exactly in its own rearrangements. */
  lemma RearrangedIff(dims: seq<Dimension>, labels: seq<Label>, fi: nat)
    requires WellFormed(dims)
    ensures var row := LabelsOf(dims, fi);
      (|labels| == |row| && forall d | 0 <= d < |row| :: ValueFor(labels, row[d].key) == Some(row[d].value))
      <==> multiset(labels) == multiset(row)
  {
    var row := LabelsOf(dims, fi);
    forall d | 0 <= d < |row|
      ensures ValueFor(labels, row[d].key) == Some(row[d].value) ==> row[d] in labels
    {
      ValueForIs(labels, row[d].key);
    }
    if |labels| == |row| && forall d | 0 <= d < |row| :: ValueFor(labels, row[d].key) == Some(row[d].value) {
      AllInSame(row, labels);
    }
    if multiset(labels) == multiset(row) {
      assert |multiset(labels)| == |multiset(row)|;
      forall d | 0 <= d < |row|
        ensures ValueFor(labels, row[d].key) == Some(row[d].value)
      {
        FoundInRow(labels, row, d);
      }
    }
  }

  lemma FoundInRow(labels: seq<Label>, row: seq<Label>, d: nat)
    requires multiset(labels) == multiset(row) && d < |row|
    requires forall i, j | 0 <= i < j < |row| :: row[i].key != row[j].key
    ensures ValueFor(labels, row[d].key) == Some(row[d].value)
  {
    ValueForIs(labels, row[d].key);
    assert row[d] in multiset(labels);
    forall l | l in labels && l.key == row[d].key
      ensures l == row[d]
    {
      assert l in multiset(row);
    }
  }

  /** The ordinals of a slot number name the values of its row. */
  lemma NamedIff(dims: seq<Dimension>, labels: seq<Label>, fi: nat)
    requires WellFormed(dims)
    ensures AllNamed(dims, labels, Digits(dims, fi)) <==>
      forall d | 0 <= d < |dims| ::
        ValueFor(labels, LabelsOf(dims, fi)[d].key) == Some(LabelsOf(dims, fi)[d].value)
  {
    var v, row := Digits(dims, fi), LabelsOf(dims, fi);
    forall d | 0 <= d < |dims|
      ensures Names(dims[d], labels, v[d]) <==> ValueFor(labels, row[d].key) == Some(row[d].value)
    {
    }
  }

  lemma DigitsKnown(dims: seq<Dimension>, v: seq<nat>)
    requires Bounded(dims) && Ordinals(dims, v)
    ensures Flat(dims, v) < Product(dims) && Digits(dims, Flat(dims, v)) == v
  {
    FlatInRange(dims, v);
    forall d | 0 <= d < |dims|
      ensures Digit(dims, Flat(dims, v), d) == v[d]
    {
      DigitsOfFlat(dims, v, d);
    }
  }

  lemma FlatOfIff(dims: seq<Dimension>, labels: seq<Label>, fi: nat)
    requires WellFormed(dims)
    ensures FlatOf(dims, labels) == Some(fi) <==>
      fi < Product(dims) && |labels| == |dims| && AllNamed(dims, labels, Digits(dims, fi))
  {
    OrdinalsOfIff(dims, labels, Digits(dims, fi));
    if FlatOf(dims, labels) == Some(fi) {
      var v := OrdinalsOf(dims, labels).value;
      OrdinalsOfIff(dims, labels, v);
      DigitsKnown(dims, v);
    }
    if fi < Product(dims) {
      FlatOfDigits(dims, fi);
    }
  }

  /** Slot fi belongs to a label set exactly when the set is row fi of the labels table in some order. */
  lemma IndexIff(dims: seq<Dimension>, labels: seq<Label>, fi: nat)
    requires WellFormed(dims)
    ensures FlatOf(dims, labels) == Some(fi) <==>
      fi < Product(dims) && multiset(labels) == multiset(LabelsOf(dims, fi))
  {
    FlatOfIff(dims, labels, fi);
    NamedIff(dims, labels, fi);
    RearrangedIff(dims, labels, fi);
  }

  // --------------------------------------------- definitions that repeat themselves

  predicate SlotIsRow(dims: seq<Dimension>, labels: seq<Label>, fi: nat)
    requires Bounded(dims)
  {
    FlatOf(dims, labels) == Some(fi) <==> fi < Product(dims) && multiset(labels) == multiset(LabelsOf(dims, fi))
  }

  /** Slots and rows of the labels table mean the same label sets. */
  ghost predicate SlotsAreRows(dims: seq<Dimension>)
    requires Bounded(dims)
  {
    forall labels, fi {:trigger SlotIsRow(dims, labels, fi)} :: SlotIsRow(dims, labels, fi)
  }

  /** A key that no dimension has. */
  function FreshKey(dims: seq<Dimension>): string {
    if dims == [] then "x" else dims[0].key + FreshKey(dims[1..])
  }

  lemma {:induction false} FreshKeyIsFresh(dims: seq<Dimension>, d: nat)
    requires d < |dims|
    ensures |FreshKey(dims)| > |dims[d].key|
  {
    if d > 0 {
      FreshKeyIsFresh(dims[1..], d - 1);
    } else {
      assert |FreshKey(dims[1..])| > 0 by { FreshKeyNotEmpty(dims[1..]); }
    }
  }

  lemma {:induction false} FreshKeyNotEmpty(dims: seq<Dimension>)
    ensures |FreshKey(dims)| > 0
  {
    if dims != [] {
      FreshKeyNotEmpty(dims[1..]);
    }
  }

  /** Look-up does not see a label behind another one with its key. */
  lemma {:induction false} UnseenLabel(row: seq<Label>, j: nat, l: Label, key: string)
    requires j < |row| && l.key != key
    requires row[j].key == key ==> exists i :: 0 <= i < j && row[i].key == key
    ensures ValueFor(row[j := l], key) == ValueFor(row, key)
  {
    if row[0].key != key && j > 0 {
      if row[j].key == key {
        var i :| 0 <= i < j && row[i].key == key;
        assert row[1..][i - 1].key == key;
      }
      UnseenLabel(row[1..], j - 1, l, key);
      assert row[j := l][1..] == row[1..][j - 1 := l];
    } else if j == 0 {
      assert row[0 := l][1..] == row[1..];
    }
  }

  lemma {:induction false} SameLookUps(dims: seq<Dimension>, a: seq<Label>, b: seq<Label>)
    requires forall d | 0 <= d < |dims| :: ValueFor(a, dims[d].key) == ValueFor(b, dims[d].key)
    ensures OrdinalsOf(dims, a) == OrdinalsOf(dims, b)
  {
    if dims != [] {
      assert forall d | 0 <= d < |dims| - 1 :: dims[1..][d] == dims[d + 1];
      SameLookUps(dims[1..], a, b);
    }
  }

  /** With a repeated key, a label nobody looks at can be anything. */
  lemma RepeatedKeyBreaks(dims: seq<Dimension>, i: nat, j: nat)
    requires Bounded(dims) && i < j < |dims| && dims[i].key == dims[j].key
    ensures !SlotsAreRows(dims)
  {
    var row := LabelsOf(dims, 0);
    var l := Label(FreshKey(dims), "");
    var other := row[j := l];
    forall d | 0 <= d < |dims|
      ensures ValueFor(row, dims[d].key) == ValueFor(other, dims[d].key)
    {
      FreshKeyIsFresh(dims, d);
      if dims[d].key == row[j].key {
        assert row[i].key == dims[d].key;
      }
      UnseenLabel(row, j, l, dims[d].key);
    }
    SameLookUps(dims, row, other);
    ProductPositive(dims);
    FreshNotInRow(dims, l, 0);
    assert l in multiset(other) && l !in multiset(row);
    assert SlotIsRow(dims, row, 0) ==> FlatOf(dims, other) == Some(0);
    assert SlotIsRow(dims, row, 0) ==> !SlotIsRow(dims, other, 0);
  }

  lemma FreshNotInRow(dims: seq<Dimension>, l: Label, fi: nat)
    requires Bounded(dims) && l.key == FreshKey(dims)
    ensures l !in LabelsOf(dims, fi)
  {
    var row := LabelsOf(dims, fi);
    forall d | 0 <= d < |row|
      ensures row[d] != l
    {
      FreshKeyIsFresh(dims, d);
    }
  }

  /** With a repeated value, two slots have the same row. */
  lemma RepeatedValueBreaks(dims: seq<Dimension>, d: nat, a: nat, b: nat)
    requires Bounded(dims) && d < |dims| && a < b < |dims[d].values| && dims[d].values[a] == dims[d].values[b]
    ensures !SlotsAreRows(dims)
  {
    var zeros := seq(|dims|, _ => 0);
    var v, w := zeros[d := a], zeros[d := b];
    DigitsKnown(dims, v);
    DigitsKnown(dims, w);
    var fi, fj := Flat(dims, v), Flat(dims, w);
    var row := LabelsOf(dims, fi);
    assert Digits(dims, fi)[d] == a && Digits(dims, fj)[d] == b;
    forall k | 0 <= k < |dims|
      ensures row[k] == LabelsOf(dims, fj)[k]
    {
      assert Digits(dims, fi)[k] == v[k] && Digits(dims, fj)[k] == w[k];
    }
    assert row == LabelsOf(dims, fj);
    assert !(SlotIsRow(dims, row, fi) && SlotIsRow(dims, row, fj));
  }

  /** Slots are found by exactly the label sets of their rows if and only if no key and no allowed value is repeated. */
  lemma SlotsAreRowsIff(dims: seq<Dimension>)
    requires Bounded(dims)
    ensures SlotsAreRows(dims) <==> WellFormed(dims)
  {
    if WellFormed(dims) {
      forall labels, fi
        ensures SlotIsRow(dims, labels, fi)
      {
        IndexIff(dims, labels, fi);
      }
    } else if !DistinctKeys(dims) {
      var i, j :| 0 <= i < j < |dims| && dims[i].key == dims[j].key;
      RepeatedKeyBreaks(dims, i, j);
    } else {
      var d :| 0 <= d < |dims| && !DistinctSeq(dims[d].values);
      var a, b :| 0 <= a < b < |dims[d].values| && dims[d].values[a] == dims[d].values[b];
      RepeatedValueBreaks(dims, d, a, b);
    }
  }

  // ------------------------------------------------------------- the methods

  method DecodeFlatIndex(dims: seq<Dimension>, strides: array<nat>, fi: nat) returns (row: seq<Label>)
    requires Bounded(dims) && strides.Length == |dims|
    requires forall d | 0 <= d < |dims| :: strides[d] == Stride(dims, d)
    ensures row == LabelsOf(dims, fi)
  {
    row := [];
    for d := 0 to |dims|
      invariant row == LabelsOf(dims, fi)[..d]
    {
      ProductPositive(dims[d + 1..]);
      var vi := fi / strides[d] % |dims[d].values|;
      row := row + [Label(dims[d].key, dims[d].values[vi])];
    }
  }

  method BuildLabelsTable(dims: seq<Dimension>, strides: array<nat>, card: nat) returns (table: seq<seq<Label>>)
    requires Bounded(dims) && strides.Length == |dims|
    requires forall d | 0 <= d < |dims| :: strides[d] == Stride(dims, d)
    ensures |table| == card && forall fi | 0 <= fi < card :: table[fi] == LabelsOf(dims, fi)
  {
    table := [];
    for fi := 0 to card
      invariant |table| == fi && forall i | 0 <= i < fi :: table[i] == LabelsOf(dims, i)
    {
      var row := DecodeFlatIndex(dims, strides, fi);
      table := table + [row];
    }
  }

  method FindValue(labels: seq<Label>, key: string) returns (r: Option<string>)
    ensures r == ValueFor(labels, key)
  {
    for i := 0 to |labels|
      invariant ValueFor(labels, key) == ValueFor(labels[i..], key)
    {
      if labels[i].key == key { return Some(labels[i].value); }
    }
    return None;
  }

  method FindOrdinal(values: seq<string>, value: string) returns (r: Option<nat>)
    ensures r == OrdinalOf(values, value)
  {
    for i := 0 to |values|
      invariant OrdinalOf(values, value) == match OrdinalOf(values[i..], value)
        case Some(k) => Some(k + i)
        case None => None
    {
      if values[i] == value { return Some(i); }
    }
    return None;
  }

  method ComputeFlatIndex(dims: seq<Dimension>, strides: array<nat>, labels: seq<Label>) returns (r: Option<nat>)
    requires strides.Length == |dims| && forall d | 0 <= d < |dims| :: strides[d] == Stride(dims, d)
    ensures r == FlatOf(dims, labels)
  {
    if |labels| != |dims| { return None; }
    var flat := 0;
    ghost var v: seq<nat> := [];
    InFrontOfNothing(OrdinalsOf(dims, labels));
    assert dims[0..] == dims;
    for d := 0 to |dims|
      invariant |v| == d
      invariant OrdinalsOf(dims, labels) == InFront(v, OrdinalsOf(dims[d..], labels))
      invariant flat == FlatUpTo(dims, v, d)
    {
      var value := FindValue(labels, dims[d].key);
      if value == None { return None; }
      var i := FindOrdinal(dims[d].values, value.value);
      if i == None { return None; }
      OneMoreOrdinal(dims, labels, v, d, i.value);
      FlatUpToSame(dims, v, i.value, d);
      v := v + [i.value];
      flat := flat + i.value * strides[d];
    }
    assert dims[|dims|..] == [] && v + [] == v;
    FlatUpToIs(dims, v, |dims|);
    r := Some(flat);
  }

  ghost function InFront(v: seq<nat>, o: Option<seq<nat>>): Option<seq<nat>> {
    match o
    case Some(rest) => Some(v + rest)
    case None => None
  }

  lemma InFrontOfNothing(o: Option<seq<nat>>)
    ensures InFront([], o) == o
  {
    match o
    case Some(rest) => assert [] + rest == rest;
    case None =>
  }

  lemma OneMoreOrdinal(dims: seq<Dimension>, labels: seq<Label>, v: seq<nat>, d: nat, i: nat)
    requires d < |dims| && ValueFor(labels, dims[d].key).Some?
    requires OrdinalOf(dims[d].values, ValueFor(labels, dims[d].key).value) == Some(i)
    ensures InFront(v, OrdinalsOf(dims[d..], labels)) == InFront(v + [i], OrdinalsOf(dims[d + 1..], labels))
  {
    assert dims[d..][1..] == dims[d + 1..];
    match OrdinalsOf(dims[d + 1..], labels)
    case Some(rest) => assert v + ([i] + rest) == v + [i] + rest;
    case None =>
  }

  /** The sum the loop has built after d dimensions. */
  ghost function FlatUpTo(dims: seq<Dimension>, v: seq<nat>, d: nat): nat
    requires d <= |dims| && d <= |v|
  {
    if d == 0 then 0 else FlatUpTo(dims, v, d - 1) + v[d - 1] * Stride(dims, d - 1)
  }

  lemma {:induction false} FlatUpToPrefix(dims: seq<Dimension>, v: seq<nat>, w: seq<nat>, d: nat)
    requires d <= |dims| && d <= |v| && d <= |w| && v[..d] == w[..d]
    ensures FlatUpTo(dims, v, d) == FlatUpTo(dims, w, d)
  {
    if d > 0 {
      assert v[..d - 1] == v[..d][..d - 1] && w[..d - 1] == w[..d][..d - 1];
      assert v[d - 1] == v[..d][d - 1] && w[d - 1] == w[..d][d - 1];
      FlatUpToPrefix(dims, v, w, d - 1);
    }
  }

  lemma FlatUpToSame(dims: seq<Dimension>, v: seq<nat>, i: nat, d: nat)
    requires d < |dims| && |v| == d
    ensures FlatUpTo(dims, v + [i], d + 1) == FlatUpTo(dims, v, d) + i * Stride(dims, d)
  {
    FlatUpToPrefix(dims, v + [i], v, d);
  }

  /** The first d terms and the value of the rest make up the index. */
  lemma {:induction false} FlatUpToIs(dims: seq<Dimension>, v: seq<nat>, d: nat)
    requires d <= |dims| == |v|
    ensures Flat(dims, v) == FlatUpTo(dims, v, d) + Flat(dims[d..], v[d..])
  {
    if d == 0 {
      assert dims[0..] == dims && v[0..] == v;
    } else {
      FlatUpToIs(dims, v, d - 1);
      assert dims[d - 1..][1..] == dims[d..] && v[d - 1..][1..] == v[d..];
    }
  }
}
