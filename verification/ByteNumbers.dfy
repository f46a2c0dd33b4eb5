// Numbers and the bytes they are written with, most significant byte first.

module ByteNumbers {

  function ToByte(x: nat): bv8
    requires x < 0x100
  {
    x as bv8
  }

  function ToNumber(b: bv8): nat { b as nat }

  lemma Successor(b: bv8)
    requires b as nat < 0xFF
    ensures (b + 1) as nat == b as nat + 1
  {
  }

  lemma {:induction false} SomeByte(x: nat) returns (b: bv8)
    requires x < 0x100
    ensures b as nat == x
  {
    b := 0;
    if x > 0 {
      b := SomeByte(x - 1);
      Successor(b);
      b := b + 1;
    }
  }

  lemma ThereAndBack(x: nat)
    requires x < 0x100
    ensures (x as bv8) as nat == x
  {
    var b := SomeByte(x);
    assert (b as nat) as bv8 == b;
  }

  lemma ByteBack(x: nat)
    requires x < 0x100
    ensures ToNumber(ToByte(x)) == x
  {
    ThereAndBack(x);
  }

  predicate AreDigits(ds: seq<nat>) { forall i | 0 <= i < |ds| :: ds[i] < 0x100 }

  function ToBytes(ds: seq<nat>): (b: seq<bv8>)
    requires AreDigits(ds)
    ensures |b| == |ds|
  {
    if ds == [] then [] else ToBytes(ds[..|ds| - 1]) + [ToByte(ds[|ds| - 1])]
  }

  /** The number the digits stand for. */
  function Value(ds: seq<nat>): nat {
    if ds == [] then 0 else 0x100 * Value(ds[..|ds| - 1]) + ds[|ds| - 1]
  }

  /** The number a byte string stands for. */
  function Number(b: seq<bv8>): nat {
    if b == [] then 0 else 0x100 * Number(b[..|b| - 1]) + ToNumber(b[|b| - 1])
  }

  lemma {:induction false} NumberOfBytes(ds: seq<nat>)
    requires AreDigits(ds)
    ensures Number(ToBytes(ds)) == Value(ds)
  {
    if ds != [] {
      var front, last := ds[..|ds| - 1], ds[|ds| - 1];
      NumberOfBytes(front);
      ByteBack(last);
      assert ToBytes(ds)[..|front|] == ToBytes(front);
    }
  }

  /** One more digit: the first k + 1 digits are x when the first k are x / 256 and the next is x % 256. */
  lemma NextDigit(ds: seq<nat>, k: nat, x: nat)
    requires k < |ds| && Value(ds[..k]) == x / 0x100 && ds[k] == x % 0x100
    ensures Value(ds[..k + 1]) == x
  {
    assert ds[..k + 1][..k] == ds[..k];
  }

  lemma Quotients(x: nat)
    ensures x / 0x100 / 0x100 == x / 0x1_0000
    ensures x / 0x1_0000 / 0x100 == x / 0x100_0000
    ensures x / 0x100_0000 / 0x100 == x / 0x1_0000_0000
    ensures x / 0x1_0000_0000 / 0x100 == x / 0x100_0000_0000
    ensures x / 0x100_0000_0000 / 0x100 == x / 0x1_0000_0000_0000
    ensures x / 0x1_0000_0000_0000 / 0x100 == x / 0x100_0000_0000_0000
  {
  }
}
