// The type-length-value fields of tlv.c: the encoder, the sequential decoder with its limits, the validator and
// the sorted index.

module Tlv {
  import opened Basics

  // ------------------------------------------------------------- the format

  const HEADER_SIZE: nat := 7
  const MAX_FIELD_SIZE: nat := 0x100_0000

  const UINT8: Byte := 0x01
  const UINT32: Byte := 0x03
  const STRING: Byte := 0x10
  const BYTES: Byte := 0x11

  datatype Field = Field(kind: Byte, tag: nat, value: seq<Byte>)

  predicate Fits(f: Field) { f.tag < U16 && |f.value| <= MAX_FIELD_SIZE }

  predicate AllFit(fs: seq<Field>) { forall i | 0 <= i < |fs| :: Fits(fs[i]) }

  function EncodeField(f: Field): (b: seq<Byte>)
    requires Fits(f)
    ensures |b| == HEADER_SIZE + |f.value|
  {
    [f.kind] + Big(f.tag, 2) + Big(|f.value|, 4) + f.value
  }

  function EncodeFields(fs: seq<Field>): seq<Byte>
    requires AllFit(fs)
  {
    if fs == [] then [] else EncodeField(fs[0]) + EncodeFields(fs[1..])
  }

  /** The bytes of a field: its type, its tag and its length with the high byte first, and its value. */
  lemma FieldLayout(f: Field)
    requires Fits(f)
    ensures var b := EncodeField(f);
      && |b| == 7 + |f.value| && b[0] == f.kind && 0x100 * (b[1] as int) + b[2] as int == f.tag
      && 0x100_0000 * (b[3] as int) + 0x1_0000 * (b[4] as int) + 0x100 * (b[5] as int) + b[6] as int == |f.value|
      && b[7..] == f.value
  {
    BigBytes(f.tag);
    BigBytes(|f.value|);
  }

  lemma EncodeFieldsOneMore(f: Field, fs: seq<Field>)
    requires Fits(f) && AllFit(fs)
    ensures AllFit([f] + fs) && EncodeFields([f] + fs) == EncodeField(f) + EncodeFields(fs)
  {
    assert ([f] + fs)[1..] == fs;
  }

  lemma Regrouped<T>(a: seq<T>, b: seq<T>, c: seq<T>)
    ensures a + (b + c) == (a + b) + c
  {
  }

  lemma {:induction false} EncodeFieldsSplit(fs: seq<Field>, gs: seq<Field>)
    requires AllFit(fs) && AllFit(gs)
    ensures AllFit(fs + gs) && EncodeFields(fs + gs) == EncodeFields(fs) + EncodeFields(gs)
  {
    if fs == [] {
      assert fs + gs == gs;
    } else {
      var f, rest := fs[0], fs[1..];
      EncodeFieldsSplit(rest, gs);
      EncodeFieldsOneMore(f, rest + gs);
      EncodeFieldsOneMore(f, rest);
      assert fs == [f] + rest && fs + gs == [f] + (rest + gs);
      Regrouped(EncodeField(f), EncodeFields(rest), EncodeFields(gs));
    }
  }

  // ------------------------------------------------------------ reading back

  datatype Outcome = Eof | Invalid | Got(field: Field)

  function RawTag(b: seq<Byte>): nat
    requires |b| >= HEADER_SIZE
  {
    FromBig(b[1..3])
  }

  function RawLength(b: seq<Byte>): nat
    requires |b| >= HEADER_SIZE
  {
    FromBig(b[3..7])
  }

  predicate TooLong(kind: Byte, length: nat, maxString: nat) {
    (kind == STRING || kind == BYTES) && length > maxString
  }

  /** The next field of b, when `left` more fields may be decoded. */
  function Peek(b: seq<Byte>, left: nat, maxString: nat): Outcome {
    if |b| == 0 then Eof
    else if |b| < HEADER_SIZE then Invalid
    else if left == 0 then Invalid
    else if RawLength(b) > MAX_FIELD_SIZE then Invalid
    else if TooLong(b[0], RawLength(b), maxString) then Invalid
    else if RawLength(b) > |b| - HEADER_SIZE then Invalid
    else Got(Field(b[0], RawTag(b), b[HEADER_SIZE..HEADER_SIZE + RawLength(b)]))
  }

  /** All fields up to where decoding stops, and how it stops. */
  datatype Walked = Walked(fields: seq<Field>, end: Outcome)

  function Walk(b: seq<Byte>, left: nat, maxString: nat): Walked
    decreases |b|
  {
    match Peek(b, left, maxString)
    case Got(f) =>
      var w := Walk(b[HEADER_SIZE + |f.value|..], left - 1, maxString);
      Walked([f] + w.fields, w.end)
    case other => Walked([], other)
  }

  /** What the limits let through. */
  function Admitted(fs: seq<Field>, left: nat, maxString: nat): seq<Field> {
    if fs == [] || left == 0 || TooLong(fs[0].kind, |fs[0].value|, maxString) then []
    else [fs[0]] + Admitted(fs[1..], left - 1, maxString)
  }

  lemma RawOfEncoded(f: Field, rest: seq<Byte>)
    requires Fits(f)
    ensures var b := EncodeField(f) + rest;
      b[0] == f.kind && RawTag(b) == f.tag && RawLength(b) == |f.value|
      && b[HEADER_SIZE..HEADER_SIZE + |f.value|] == f.value && b[HEADER_SIZE + |f.value|..] == rest
  {
    var b := EncodeField(f) + rest;
    assert b[1..3] == Big(f.tag, 2);
    assert b[3..7] == Big(|f.value|, 4);
    PowersOf();
    FromBigOfBig(f.tag, 2);
    FromBigOfBig(|f.value|, 4);
  }

  lemma EncodedOfRaw(b: seq<Byte>)
    requires |b| >= HEADER_SIZE && RawLength(b) <= MAX_FIELD_SIZE && RawLength(b) <= |b| - HEADER_SIZE
    ensures var f := Field(b[0], RawTag(b), b[HEADER_SIZE..HEADER_SIZE + RawLength(b)]);
      Fits(f) && b == EncodeField(f) + b[HEADER_SIZE + RawLength(b)..]
  {
    PowersOf();
    BigOfFromBig(b[1..3]);
    BigOfFromBig(b[3..7]);
    assert b == [b[0]] + b[1..3] + b[3..7] + b[HEADER_SIZE..HEADER_SIZE + RawLength(b)]
                + b[HEADER_SIZE + RawLength(b)..];
  }

  lemma WalkStep(f: Field, rest: seq<Byte>, left: nat, maxString: nat)
    requires Fits(f)
    ensures Walk(EncodeField(f) + rest, left, maxString)
         == if left == 0 || TooLong(f.kind, |f.value|, maxString) then Walked([], Invalid)
            else var w := Walk(rest, left - 1, maxString); Walked([f] + w.fields, w.end)
  {
    RawOfEncoded(f, rest);
  }

  /** What a walk over the encoding of fs should return. */
  function ExpectedWalk(fs: seq<Field>, left: nat, maxString: nat): Walked {
    var admitted := Admitted(fs, left, maxString);
    Walked(admitted, if admitted == fs then Eof else Invalid)
  }

  lemma ExpectedStep(f: Field, fs: seq<Field>, left: nat, maxString: nat)
    ensures ExpectedWalk([f] + fs, left, maxString)
         == if left == 0 || TooLong(f.kind, |f.value|, maxString) then Walked([], Invalid)
            else var w := ExpectedWalk(fs, left - 1, maxString); Walked([f] + w.fields, w.end)
  {
    assert ([f] + fs)[1..] == fs;
    if left > 0 { AdmittedWhole([f] + fs, left, maxString); }
  }

  lemma WalkOfMore(f: Field, enc: seq<Byte>, fs: seq<Field>, left: nat, maxString: nat)
    requires Fits(f) && (left > 0 ==> Walk(enc, left - 1, maxString) == ExpectedWalk(fs, left - 1, maxString))
    ensures Walk(EncodeField(f) + enc, left, maxString) == ExpectedWalk([f] + fs, left, maxString)
  {
    WalkStep(f, enc, left, maxString);
    ExpectedStep(f, fs, left, maxString);
  }

  /** Decoding an encoding returns the fields themselves, as far as the limits go. */
  lemma {:induction false} WalkOfEncoded(fs: seq<Field>, left: nat, maxString: nat)
    requires AllFit(fs)
    ensures Walk(EncodeFields(fs), left, maxString)
         == Walked(Admitted(fs, left, maxString), if Admitted(fs, left, maxString) == fs then Eof else Invalid)
  {
    if fs != [] {
      var f, rest := fs[0], fs[1..];
      if left > 0 { WalkOfEncoded(rest, left - 1, maxString); }
      WalkOfMore(f, EncodeFields(rest), rest, left, maxString);
      assert fs == [f] + rest;
    }
  }

  lemma AdmittedWhole(fs: seq<Field>, left: nat, maxString: nat)
    requires fs != [] && left > 0
    ensures Admitted(fs, left, maxString) == fs <==>
      !TooLong(fs[0].kind, |fs[0].value|, maxString) && Admitted(fs[1..], left - 1, maxString) == fs[1..]
  {
    assert fs == [fs[0]] + fs[1..];
    assert ([fs[0]] + Admitted(fs[1..], left - 1, maxString))[1..] == Admitted(fs[1..], left - 1, maxString);
  }

  lemma WalkIsRead(b: seq<Byte>, left: nat, maxString: nat)
    requires Peek(b, left, maxString).Got?
    ensures var f := Peek(b, left, maxString).field;
      left > 0 && Fits(f) && !TooLong(f.kind, |f.value|, maxString) && HEADER_SIZE + |f.value| <= |b|
      && b == EncodeField(f) + b[HEADER_SIZE + |f.value|..]
  {
    EncodedOfRaw(b);
  }

  lemma PrefixExtended<T>(a: seq<T>, b: seq<T>, c: seq<T>)
    requires b <= c
    ensures a + b <= a + c && (a + b == a + c <==> b == c)
  {
    assert (a + b)[|a|..] == b && (a + c)[|a|..] == c;
  }

  /** Whatever a walk returns was encoded in the buffer, one field after another; it is the whole buffer exactly
      when the walk ends cleanly. */
  lemma {:induction false} EncodedOfWalk(b: seq<Byte>, left: nat, maxString: nat)
    ensures AllFit(Walk(b, left, maxString).fields)
    ensures EncodeFields(Walk(b, left, maxString).fields) <= b
    ensures Walk(b, left, maxString).end == Eof <==> EncodeFields(Walk(b, left, maxString).fields) == b
    decreases |b|
  {
    match Peek(b, left, maxString)
    case Got(f) =>
      var rest := b[HEADER_SIZE + |f.value|..];
      WalkIsRead(b, left, maxString);
      EncodedOfWalk(rest, left - 1, maxString);
      var fs := Walk(rest, left - 1, maxString).fields;
      EncodeFieldsOneMore(f, fs);
      PrefixExtended(EncodeField(f), EncodeFields(fs), rest);
    case _ =>
  }

  /** The limits are kept. */
  lemma {:induction false} WalkWithinLimits(b: seq<Byte>, left: nat, maxString: nat)
    ensures var w := Walk(b, left, maxString);
      |w.fields| <= left && (w.end == Eof || w.end == Invalid) && Admitted(w.fields, left, maxString) == w.fields
    decreases |b|
  {
    match Peek(b, left, maxString)
    case Got(f) =>
      WalkWithinLimits(b[HEADER_SIZE + |f.value|..], left - 1, maxString);
      AdmittedWhole(Walk(b, left, maxString).fields, left, maxString);
    case _ =>
  }
}
