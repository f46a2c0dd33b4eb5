// Types that several modules share, and numbers as bytes.

module Basics {

  type Byte = b: int | 0 <= b < 256

  datatype Option<+T> = None | Some(value: T)

  const U16: nat := 0x1_0000
  const U32: nat := 0x1_0000_0000

  function Power(n: nat): (p: nat)
    ensures p >= 1
  {
    if n == 0 then 1 else 0x100 * Power(n - 1)
  }

  /** A number in n bytes, network byte order. */
  function Big(x: nat, n: nat): (b: seq<Byte>)
    ensures |b| == n
  {
    if n == 0 then [] else Big(x / 0x100, n - 1) + [x % 0x100]
  }

  function FromBig(b: seq<Byte>): (x: nat)
    ensures x < Power(|b|)
  {
    if b == [] then 0 else 0x100 * FromBig(b[..|b| - 1]) + (b[|b| - 1] as int)
  }

  lemma {:induction false} FromBigOfBig(x: nat, n: nat)
    requires x < Power(n)
    ensures FromBig(Big(x, n)) == x
  {
    if n > 0 {
      DropDigit(x, Power(n - 1));
      FromBigOfBig(x / 0x100, n - 1);
      FromBigOneMore(Big(x / 0x100, n - 1), x % 0x100);
    }
  }

  lemma DropDigit(x: nat, p: nat)
    requires x < 0x100 * p
    ensures x / 0x100 < p
  {
  }

  lemma FromBigOneMore(b: seq<Byte>, last: Byte)
    ensures FromBig(b + [last]) == 0x100 * FromBig(b) + last as int
  {
    assert (b + [last])[..|b|] == b;
  }

  lemma {:induction false} BigOfFromBig(b: seq<Byte>)
    ensures Big(FromBig(b), |b|) == b
  {
    if b != [] {
      var front, last := b[..|b| - 1], b[|b| - 1];
      BigOfFromBig(front);
      assert FromBig(b) / 0x100 == FromBig(front) && FromBig(b) % 0x100 == last as int;
      assert b == front + [last];
    }
  }

  lemma PowersOf()
    ensures Power(2) == U16 && Power(4) == U32
  {
  }

  /** A number in n bytes, low byte first. */
  function Little(x: nat, n: nat): (b: seq<Byte>)
    ensures |b| == n
  {
    if n == 0 then [] else [x % 0x100] + Little(x / 0x100, n - 1)
  }

  function FromLittle(b: seq<Byte>): (x: nat)
    ensures x < Power(|b|)
  {
    if b == [] then 0 else (b[0] as int) + 0x100 * FromLittle(b[1..])
  }

  lemma {:induction false} FromLittleOfLittle(x: nat, n: nat)
    requires x < Power(n)
    ensures FromLittle(Little(x, n)) == x
  {
    if n > 0 {
      assert Little(x, n)[1..] == Little(x / 0x100, n - 1);
      FromLittleOfLittle(x / 0x100, n - 1);
    }
  }

  /** The bytes of a number of two bytes and of four, the high ones first. */
  lemma BigBytes(x: nat)
    ensures x < U16 ==> var b := Big(x, 2); 0x100 * (b[0] as int) + b[1] as int == x
    ensures x < U32 ==> var b := Big(x, 4);
      0x100_0000 * (b[0] as int) + 0x1_0000 * (b[1] as int) + 0x100 * (b[2] as int) + b[3] as int == x
  {
    assert Big(x, 2) == Big(x / 0x100, 1) + [x % 0x100] && Big(x / 0x100, 1) == [x / 0x100 % 0x100];
    assert Big(x, 4) == Big(x / 0x100, 3) + [x % 0x100];
    assert Big(x / 0x100, 3) == Big(x / 0x100 / 0x100, 2) + [x / 0x100 % 0x100];
    assert Big(x / 0x100 / 0x100, 2) == Big(x / 0x100 / 0x100 / 0x100, 1) + [x / 0x100 / 0x100 % 0x100];
    assert Big(x / 0x100 / 0x100 / 0x100, 1) == [x / 0x100 / 0x100 / 0x100 % 0x100];
  }

  /** The bytes of a number of four bytes, the low ones first. */
  lemma LittleBytes(x: nat)
    requires x < U32
    ensures var b := Little(x, 4);
      b[0] as int + 0x100 * (b[1] as int) + 0x1_0000 * (b[2] as int) + 0x100_0000 * (b[3] as int) == x
  {
    assert Little(x, 4) == [x % 0x100] + Little(x / 0x100, 3);
    assert Little(x / 0x100, 3) == [x / 0x100 % 0x100] + Little(x / 0x100 / 0x100, 2);
    assert Little(x / 0x100 / 0x100, 2) == [x / 0x100 / 0x100 % 0x100] + Little(x / 0x100 / 0x100 / 0x100, 1);
    assert Little(x / 0x100 / 0x100 / 0x100, 1) == [x / 0x100 / 0x100 / 0x100 % 0x100];
  }
}
