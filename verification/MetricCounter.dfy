// Counters over the slots: what each slot holds after any sequence of updates.

module MetricCounter {
  import opened Basics
  import opened MetricIndex
  import opened MetricSlots

  const U64: nat := 0x1_0000_0000_0000_0000

  datatype Update = Plain(amount: nat) | Labelled(labels: seq<Label>, amount: nat)

  /** What the updates whose labels are row fi of the labels table, in any order, add up to. */
  function RowTotal(dims: seq<Dimension>, fi: nat, history: seq<Update>): nat
    requires Bounded(dims)
  {
    if history == [] then 0
    else
      var last := history[|history| - 1];
      RowTotal(dims, fi, history[..|history| - 1])
      + if last.Labelled? && multiset(last.labels) == multiset(LabelsOf(dims, fi)) then last.amount else 0
  }

  function PlainTotal(history: seq<Update>): nat {
    if history == [] then 0
    else
      var last := history[|history| - 1];
      PlainTotal(history[..|history| - 1]) + if last.Plain? then last.amount else 0
  }

  function LabelledTotal(history: seq<Update>): nat {
    if history == [] then 0
    else
      var last := history[|history| - 1];
      LabelledTotal(history[..|history| - 1]) + if last.Labelled? then last.amount else 0
  }

  // ------------------------------------- sums over slots, for any assignment

  type Assignment = seq<Label> -> Option<nat>

  /** What an update adds to slot s, when those without labels go to slot `plain`. */
  function Share(slotOf: Assignment, plain: nat, s: nat, u: Update): nat {
    match u
    case Plain(n) => if s == plain then n else 0
    case Labelled(labels, n) => if slotOf(labels) == Some(s) then n else 0
  }

  function Expected(slotOf: Assignment, plain: nat, s: nat, history: seq<Update>): nat {
    if history == [] then 0
    else Expected(slotOf, plain, s, history[..|history| - 1]) + Share(slotOf, plain, s, history[|history| - 1])
  }

  lemma ExpectedOneMore(slotOf: Assignment, plain: nat, s: nat, history: seq<Update>, u: Update)
    ensures Expected(slotOf, plain, s, history + [u])
         == Expected(slotOf, plain, s, history) + Share(slotOf, plain, s, u)
  {
    assert (history + [u])[..|history|] == history;
  }

  function SumExpected(slotOf: Assignment, plain: nat, n: nat, history: seq<Update>): nat {
    if n == 0 then 0 else SumExpected(slotOf, plain, n - 1, history) + Expected(slotOf, plain, n - 1, history)
  }

  /** How much an update adds to the first n slots. */
  function ShareBelow(slotOf: Assignment, plain: nat, n: nat, u: Update): nat {
    match u
    case Plain(k) => if plain < n then k else 0
    case Labelled(labels, k) => if slotOf(labels).Some? && slotOf(labels).value < n then k else 0
  }

  lemma {:induction false} SumOneMore(slotOf: Assignment, plain: nat, n: nat, history: seq<Update>, u: Update)
    ensures SumExpected(slotOf, plain, n, history + [u])
         == SumExpected(slotOf, plain, n, history) + ShareBelow(slotOf, plain, n, u)
  {
    if n > 0 {
      SumOneMore(slotOf, plain, n - 1, history, u);
      ExpectedOneMore(slotOf, plain, n - 1, history, u);
    }
  }

  lemma {:induction false} SumOfNothing(slotOf: Assignment, plain: nat, n: nat)
    ensures SumExpected(slotOf, plain, n, []) == 0
  {
    if n > 0 {
      SumOfNothing(slotOf, plain, n - 1);
    }
  }

  /** Every labelled update went to one of the first n slots. */
  ghost predicate Known(slotOf: Assignment, n: nat, history: seq<Update>) {
    forall i | 0 <= i < |history| && history[i].Labelled? ::
      slotOf(history[i].labels).Some? && slotOf(history[i].labels).value < n
  }

  /** With the plain slot behind them, the first n slots together hold every labelled update once. */
  lemma {:induction false} NothingLost(slotOf: Assignment, n: nat, history: seq<Update>)
    requires Known(slotOf, n, history)
    ensures SumExpected(slotOf, n, n, history) == LabelledTotal(history)
  {
    if history == [] {
      SumOfNothing(slotOf, n, n);
    } else {
      var front, last := history[..|history| - 1], history[|history| - 1];
      NothingLost(slotOf, n, front);
      assert history == front + [last];
      SumOneMore(slotOf, n, n, front, last);
    }
  }

  /** The plain slot behind the labelled ones holds the updates without labels and nothing else. */
  lemma {:induction false} PlainKeptApart(slotOf: Assignment, n: nat, history: seq<Update>)
    requires Known(slotOf, n, history)
    ensures Expected(slotOf, n, n, history) == PlainTotal(history)
  {
    if history != [] {
      PlainKeptApart(slotOf, n, history[..|history| - 1]);
    }
  }

  /** A single slot holds everything. */
  lemma {:induction false} AllInOneSlot(slotOf: Assignment, history: seq<Update>)
    requires Known(slotOf, 1, history)
    ensures Expected(slotOf, 0, 0, history) == PlainTotal(history) + LabelledTotal(history)
  {
    if history != [] {
      AllInOneSlot(slotOf, history[..|history| - 1]);
    }
  }

  /** Slot fi holds exactly the updates whose labels are row fi. */
  lemma {:induction false} RowLands(dims: seq<Dimension>, slotOf: Assignment, plain: nat, fi: nat, history: seq<Update>)
    requires WellFormed(dims) && fi < Product(dims) && plain != fi
    requires forall labels :: slotOf(labels) == FlatOf(dims, labels)
    ensures Expected(slotOf, plain, fi, history) == RowTotal(dims, fi, history)
  {
    if history != [] {
      var last := history[|history| - 1];
      RowLands(dims, slotOf, plain, fi, history[..|history| - 1]);
      if last.Labelled? {
        IndexIff(dims, last.labels, fi);
      }
    }
  }

  // --------------------------------------------------------------- wrapping

  lemma AddMod(x: nat, n: nat)
    ensures (x % U64 + n) % U64 == (x + n) % U64
  {
  }

  lemma AddMods(v: nat, w: nat, x: nat, y: nat)
    requires v == x % U64 && w == y % U64
    ensures (v + w) % U64 == (x + y) % U64
  {
    AddMod(x, w);
    AddMod(y, x);
  }

  /** Adding an update's amount to its slot keeps every slot at its sum. */
  lemma OneSlotAdded(slotOf: Assignment, plain: nat, xs: seq<nat>, ys: seq<nat>, s: nat, u: Update,
                     history: seq<Update>)
    requires s < |xs| && forall t | 0 <= t < |xs| :: xs[t] == Expected(slotOf, plain, t, history) % U64
    requires ys == xs[s := (Expected(slotOf, plain, s, history) + u.amount) % U64]
    requires if u.Labelled? then slotOf(u.labels) == Some(s) else s == plain
    ensures forall t | 0 <= t < |ys| :: ys[t] == Expected(slotOf, plain, t, history + [u]) % U64
  {
    forall t | 0 <= t < |ys|
      ensures ys[t] == Expected(slotOf, plain, t, history + [u]) % U64
    {
      ExpectedOneMore(slotOf, plain, t, history, u);
    }
  }

  function WrappedSum(xs: seq<nat>, n: nat): nat
    requires n <= |xs|
  {
    if n == 0 then 0 else (WrappedSum(xs, n - 1) + xs[n - 1]) % U64
  }

  lemma {:induction false} SlotsSum(slotOf: Assignment, plain: nat, xs: seq<nat>, n: nat, history: seq<Update>)
    requires n <= |xs| && forall s | 0 <= s < n :: xs[s] == Expected(slotOf, plain, s, history) % U64
    ensures WrappedSum(xs, n) == SumExpected(slotOf, plain, n, history) % U64
  {
    if n > 0 {
      SlotsSum(slotOf, plain, xs, n - 1, history);
      AddMods(WrappedSum(xs, n - 1), xs[n - 1],
              SumExpected(slotOf, plain, n - 1, history), Expected(slotOf, plain, n - 1, history));
    }
  }

  // ------------------------------------------------------------- the counter

  const MAX_CARDINALITY: nat := 10000

  /** Updates without labels have a slot of their own behind the labelled ones. */
  function PlainSlot(dims: seq<Dimension>): nat { if dims != [] then Product(dims) else 0 }

  function SlotCount(dims: seq<Dimension>): nat { if dims != [] then Product(dims) + 1 else 1 }

  class Counter {
    const dims: seq<Dimension>
    const strides: array<nat>
    const cardinality: nat
    const slots: array<nat>
    ghost const slotOf: Assignment
    ghost var history: seq<Update>

    ghost predicate Fixed()
      reads strides
    {
      WellFormed(dims) && cardinality == Product(dims) && slots != strides
      && strides.Length == |dims| && (forall d | 0 <= d < |dims| :: strides[d] == Stride(dims, d))
      && slots.Length == SlotCount(dims) && forall labels :: slotOf(labels) == FlatOf(dims, labels)
    }

    ghost predicate Valid()
      reads this, slots, strides
    {
      Fixed() && Known(slotOf, cardinality, history)
      && forall s | 0 <= s < slots.Length :: slots[s] == Expected(slotOf, PlainSlot(dims), s, history) % U64
    }

    constructor (dims: seq<Dimension>, card: nat, strides: array<nat>)
      requires WellFormed(dims) && card == Product(dims)
      requires strides.Length == |dims| && forall d | 0 <= d < |dims| :: strides[d] == Stride(dims, d)
      ensures this.dims == dims && Valid() && history == []
    {
      this.dims, this.cardinality, this.strides := dims, card, strides;
      slots := new nat[if |dims| > 0 then card + 1 else card](_ => 0);
      slotOf := labels => FlatOf(dims, labels);
      history := [];
    }

    /** One slot takes n; every other slot's share is nothing. */
    method AddAt(s: nat, u: Update)
      requires Valid() && s < slots.Length
      requires if u.Labelled? then slotOf(u.labels) == Some(s) && s < cardinality else s == PlainSlot(dims)
      modifies this`history, slots
      ensures Valid() && history == old(history) + [u]
    {
      ghost var plain := PlainSlot(dims);
      ghost var before := slots[..];
      slots[s] := (slots[s] + u.amount) % U64;
      AddMod(Expected(slotOf, plain, s, history), u.amount);
      OneSlotAdded(slotOf, plain, before, slots[..], s, u, history);
      assert forall t | 0 <= t < slots.Length :: slots[t] == slots[..][t];
      history := history + [u];
    }

    /** metrics_counter_inc and metrics_counter_add. */
    method Add(n: nat)
      requires Valid()
      modifies this`history, slots
      ensures Valid() && history == old(history) + [Plain(n)]
    {
      AddAt(if |dims| > 0 then cardinality else 0, Plain(n));
    }

    /** metrics_counter_inc_labels and metrics_counter_add_labels. */
    method AddLabels(labels: seq<Label>, n: nat) returns (ok: bool)
      requires Valid()
      modifies this`history, slots
      ensures Valid() && (ok <==> FlatOf(dims, labels).Some?)
      ensures history == if ok then old(history) + [Labelled(labels, n)] else old(history)
    {
      var index := ComputeFlatIndex(dims, strides, labels);
      if index == None { return false; }
      IndexIff(dims, labels, index.value);
      AddAt(index.value, Labelled(labels, n));
      return true;
    }

    /** Without dimensions the one slot takes every update, labelled by no labels or not. */
    method Get() returns (r: nat)
      requires Valid()
      ensures r == (PlainTotal(history) + if dims == [] then LabelledTotal(history) else 0) % U64
    {
      if |dims| > 0 { PlainKeptApart(slotOf, cardinality, history); } else { AllInOneSlot(slotOf, history); }
      r := slots[if |dims| > 0 then cardinality else 0];
    }

    /** Nothing labelled is lost or counted twice. */
    method GetLabelledTotal() returns (r: nat)
      requires Valid()
      ensures r == (LabelledTotal(history) + if dims == [] then PlainTotal(history) else 0) % U64
    {
      ProductPositive(dims);
      if |dims| == 0 || cardinality == 0 {
        AllInOneSlot(slotOf, history);
        return slots[0];
      }
      r := 0;
      for s := 0 to cardinality
        invariant r == WrappedSum(slots[..], s)
      {
        r := (r + slots[s]) % U64;
      }
      SlotsSum(slotOf, cardinality, slots[..], cardinality, history);
      NothingLost(slotOf, cardinality, history);
    }

    /** Row fi of the labels table names exactly the updates that slot fi adds up. */
    lemma SlotHoldsRow(fi: nat)
      requires Valid() && dims != [] && fi < Product(dims)
      ensures slots[fi] == RowTotal(dims, fi, history) % U64
    {
      RowLands(dims, slotOf, PlainSlot(dims), fi, history);
    }
  }

  // ------------------------------------------------------- unlabelled updates

  datatype Kind = CounterMetric | GaugeMetric | HistogramMetric

  /** The slot an update without labels goes to. */
  function UnlabelledSlot(kind: Kind, dims: seq<Dimension>): nat {
    if kind == CounterMetric && dims != [] then Product(dims) else 0
  }

  /** Only counters keep it apart: a labelled gauge or histogram shares it with the first combination. */
  lemma UnlabelledSlotShared(kind: Kind, dims: seq<Dimension>)
    requires WellFormed(dims)
    ensures (exists labels :: FlatOf(dims, labels) == Some(UnlabelledSlot(kind, dims)))
       <==> kind != CounterMetric || dims == []
  {
    var s := UnlabelledSlot(kind, dims);
    forall labels
      ensures FlatOf(dims, labels) == Some(s) ==> s < Product(dims)
    {
      IndexIff(dims, labels, s);
    }
    ProductPositive(dims);
    if s < Product(dims) {
      var row := LabelsOf(dims, s);
      IndexIff(dims, row, s);
      assert FlatOf(dims, row) == Some(s);
    }
  }

  /** Registration: unbounded dimensions and too many combinations are refused. */
  method Register(dims: seq<Dimension>, cap: nat) returns (r: Option<Counter>)
    requires DistinctKeys(dims) && forall d | 0 <= d < |dims| :: DistinctSeq(dims[d].values)
    ensures r.Some? <==>
      Bounded(dims) && Product(dims) <= (if cap == 0 || cap > MAX_CARDINALITY then MAX_CARDINALITY else cap)
    ensures r.Some? ==> r.value.Valid() && r.value.dims == dims && r.value.history == []
  {
    var limit := if cap == 0 || cap > MAX_CARDINALITY then MAX_CARDINALITY else cap;
    var card := ComputeCardinality(dims);
    if card == 0 && |dims| > 0 {
      if Bounded(dims) { ProductPositive(dims); }
      return None;
    }
    if card > limit { return None; }
    var strides := ComputeStrides(dims);
    var c := new Counter(dims, card, strides);
    r := Some(c);
  }
}
