// The encoder with its growing buffer, the decoder with its offset and index, and the validator, each proved
// against the functions of module Tlv.

module TlvCoder {
  import opened Basics
  import opened Tlv

  // ---------------------------------------------------------------- encoder

  class Encoder {
    var buffer: array<Byte>
    var offset: nat

    ghost predicate Valid()
      reads this
    {
      offset <= buffer.Length
    }

    ghost function Contents(): seq<Byte>
      reads this, buffer
      requires Valid()
    {
      buffer[..offset]
    }

    constructor (initialCapacity: nat)
      ensures Valid() && fresh(buffer) && Contents() == []
      ensures buffer.Length == if initialCapacity == 0 then 256 else initialCapacity
    {
      buffer := new Byte[if initialCapacity == 0 then 256 else initialCapacity](_ => 0);
      offset := 0;
    }

    /** Room for `required` more bytes; the buffer doubles until it suffices. */
    method EnsureCapacity(required: nat)
      requires Valid()
      modifies this`buffer
      ensures Valid() && offset + required <= buffer.Length
      ensures Contents() == old(Contents())
      ensures buffer == old(buffer) || fresh(buffer)
      ensures old(buffer.Length) >= offset + required ==> buffer == old(buffer)
    {
      if offset + required <= buffer.Length { return; }
      var capacity: int := if buffer.Length > 0 then buffer.Length else 256;
      while capacity < offset + required
        invariant capacity > 0 && capacity >= buffer.Length
        decreases offset + required - capacity
      {
        capacity := capacity * 2;
      }
      var from := buffer;
      var bigger := new Byte[capacity](i requires 0 <= i < capacity reads from =>
        if i < from.Length then from[i] else 0);
      assert bigger[..offset] == from[..offset];
      buffer := bigger;
    }

    /** Append a field, unless its value is larger than any field may be. */
    method EncodeRaw(kind: Byte, tag: nat, value: seq<Byte>) returns (ok: bool)
      requires Valid() && tag < U16
      modifies this, buffer
      ensures Valid() && (buffer == old(buffer) || fresh(buffer))
      ensures ok <==> |value| <= MAX_FIELD_SIZE
      ensures Contents() == old(Contents()) + if ok then EncodeField(Field(kind, tag, value)) else []
    {
      if |value| > MAX_FIELD_SIZE { return false; }
      EnsureCapacity(HEADER_SIZE + |value|);
      ghost var before := Contents();
      var header := [kind] + Big(tag, 2) + Big(|value|, 4);
      Store(header);
      Store(value);
      assert Contents() == before + EncodeField(Field(kind, tag, value));
      return true;
    }

    method Store(bytes: seq<Byte>)
      requires Valid() && offset + |bytes| <= buffer.Length
      modifies this`offset, buffer
      ensures Valid() && offset == old(offset) + |bytes|
      ensures Contents() == old(Contents()) + bytes
    {
      for k := 0 to |bytes|
        invariant offset == old(offset)
        invariant buffer[..offset + k] == old(Contents()) + bytes[..k]
      {
        buffer[offset + k] := bytes[k];
      }
      offset := offset + |bytes|;
    }

    /** The finished bytes; the encoder is left empty. */
    method Detach() returns (bytes: seq<Byte>)
      requires Valid()
      modifies this
      ensures bytes == old(Contents())
      ensures Valid() && Contents() == [] && fresh(buffer)
    {
      bytes := buffer[..offset];
      buffer := new Byte[0];
      offset := 0;
    }
  }

  // ---------------------------------------------------------------- decoder

  const DEFAULT_MAX_FIELDS: nat := 512
  const DEFAULT_MAX_STRING: nat := 0x10_0000

  /** Limits of zero stand for the defaults. */
  function FieldLimit(maxFields: nat): nat { if maxFields == 0 then DEFAULT_MAX_FIELDS else maxFields }
  function StringLimit(maxString: nat): nat { if maxString == 0 then DEFAULT_MAX_STRING else maxString }

  /** A row of the index: where a field with this tag begins. */
  datatype IndexEntry = IndexEntry(tag: nat, at: nat)

  class Decoder {
    const buffer: seq<Byte>
    const maxFields: nat
    const maxString: nat
    var offset: nat
    var decoded: nat
    var index: Option<seq<IndexEntry>>

    predicate Valid()
      reads this
    {
      offset <= |buffer| && decoded <= maxFields
    }

    /** What is left to decode. */
    ghost function Rest(): Walked
      reads this
      requires Valid()
    {
      Walk(buffer[offset..], maxFields - decoded, maxString)
    }

    ghost function All(): Walked { Walk(buffer, maxFields, maxString) }

    constructor (bytes: seq<Byte>, maxFields: nat, maxString: nat)
      ensures buffer == bytes
      ensures this.maxFields == FieldLimit(maxFields) && this.maxString == StringLimit(maxString)
      ensures Valid() && Rest() == All() && index == None
    {
      buffer := bytes;
      this.maxFields := if maxFields == 0 then DEFAULT_MAX_FIELDS else maxFields;
      this.maxString := if maxString == 0 then DEFAULT_MAX_STRING else maxString;
      offset, decoded, index := 0, 0, None;
      new;
      assert buffer[0..] == buffer;
    }

    method Reset()
      modifies this`offset, this`decoded
      ensures offset == 0 && decoded == 0 && Valid() && Rest() == All()
    {
      offset, decoded := 0, 0;
      assert buffer[0..] == buffer;
    }

    method Next() returns (r: Outcome)
      requires Valid()
      modifies this`offset, this`decoded
      ensures Valid()
      ensures match r
        case Got(f) =>
          old(Rest()).fields == [f] + Rest().fields && Rest().end == old(Rest()).end && offset > old(offset)
        case _ =>
          old(Rest()) == Walked([], r) && offset == old(offset) && decoded == old(decoded)
    {
      ghost var rest := buffer[offset..];
      if offset >= |buffer| { return Eof; }
      if offset + HEADER_SIZE > |buffer| { return Invalid; }
      if decoded >= maxFields { return Invalid; }
      var kind, tag, length := ReadHeader(offset);
      if length > MAX_FIELD_SIZE { return Invalid; }
      if (kind == STRING || kind == BYTES) && length > maxString { return Invalid; }
      if length > |buffer| - offset - HEADER_SIZE { return Invalid; }
      var value := buffer[offset + HEADER_SIZE..offset + HEADER_SIZE + length];
      r := Got(Field(kind, tag, value));
      assert value == rest[HEADER_SIZE..HEADER_SIZE + length];
      offset := offset + HEADER_SIZE + length;
      decoded := decoded + 1;
      assert buffer[offset..] == rest[HEADER_SIZE + length..];
    }

    method ReadHeader(at: nat) returns (kind: Byte, tag: nat, length: nat)
      requires at + HEADER_SIZE <= |buffer|
      ensures kind == buffer[at..][0] && tag == RawTag(buffer[at..]) && length == RawLength(buffer[at..])
    {
      kind := buffer[at];
      tag := FromBig(buffer[at + 1..at + 3]);
      length := FromBig(buffer[at + 3..at + 7]);
      assert buffer[at..][1..3] == buffer[at + 1..at + 3];
      assert buffer[at..][3..7] == buffer[at + 3..at + 7];
    }

    /** The linear search: the next field with this tag. */
    method FindField(tag: nat) returns (r: Option<Field>)
      requires Valid()
      modifies this`offset, this`decoded
      ensures Valid() && r == FirstWithTag(old(Rest()).fields, tag)
    {
      while true
        invariant Valid()
        invariant FirstWithTag(Rest().fields, tag) == FirstWithTag(old(Rest()).fields, tag)
        decreases |buffer| - offset
      {
        var o := Next();
        match o
        case Got(f) =>
          if f.tag == tag { return Some(f); }
        case _ =>
          return None;
      }
    }

    /** The fields the index covers: the field limit holds, the string limit does not. */
    ghost function Indexed(): seq<Field> { Walk(buffer, maxFields, MAX_FIELD_SIZE).fields }

    ghost predicate IndexBuilt()
      reads this`index
    {
      index.Some? && SortedByTag(index.value) && Covers(buffer, index.value, Indexed())
    }

    /** Rows for the fields in order, then sorted by tag. */
    method BuildIndex()
      modifies this
      ensures Valid() && Rest() == All() && IndexBuilt()
    {
      index := None;
      Reset();
      var rows := CollectRows();
      var sorted := SortByTag(rows);
      assert buffer[0..] == buffer;
      RowsPoint(buffer, 0, maxFields);
      CoversAnyOrder(buffer, rows, sorted, Indexed());
      index := Some(sorted);
      Reset();
    }

    method CollectRows() returns (rows: seq<IndexEntry>)
      requires offset == 0
      modifies this`offset
      ensures rows == Rows(buffer, 0, maxFields)
    {
      rows := [];
      while offset + HEADER_SIZE <= |buffer|
        invariant offset <= |buffer| && |rows| <= maxFields
        invariant Rows(buffer, 0, maxFields) == rows + Rows(buffer, offset, maxFields - |rows|)
        decreases |buffer| - offset
      {
        if |rows| >= maxFields { break; }
        var kind, tag, length := ReadHeader(offset);
        if length > MAX_FIELD_SIZE { break; }
        if length > |buffer| - offset - HEADER_SIZE { break; }
        rows := rows + [IndexEntry(tag, offset)];
        offset := offset + HEADER_SIZE + length;
      }
    }

    /** Binary search in the index. */
    method FindIndexed(tag: nat) returns (r: Lookup)
      requires index.Some? ==> IndexBuilt()
      ensures r == NotBuilt <==> index == None
      ensures r == NotFound ==> FirstWithTag(Indexed(), tag) == None
      ensures r.Found? ==> r.field in Indexed() && r.field.tag == tag
    {
      if index == None { return NotBuilt; }
      var rows := index.value;
      var low, high := 0, |rows|;
      while low < high
        invariant 0 <= low <= high <= |rows|
        invariant forall i | 0 <= i < low :: rows[i].tag < tag
        invariant forall i | high <= i < |rows| :: rows[i].tag > tag
      {
        var mid := (low + high) / 2;
        if rows[mid].tag == tag {
          var f := ReadField(rows[mid]);
          return Found(f);
        }
        if rows[mid].tag < tag { low := mid + 1; } else { high := mid; }
      }
      NoRowNoField(buffer, rows, Indexed(), tag);
      return NotFound;
    }

    method ReadField(row: IndexEntry) returns (f: Field)
      requires IndexBuilt() && row in index.value
      ensures f in Indexed() && f.tag == row.tag
    {
      ghost var g :| g in Indexed() && PointsTo(buffer, row, g);
      var kind, tag, length := ReadHeader(row.at);
      f := Field(kind, tag, buffer[row.at + HEADER_SIZE..row.at + HEADER_SIZE + length]);
      assert buffer[row.at..][HEADER_SIZE..HEADER_SIZE + length] == f.value;
    }
  }

  datatype Lookup = NotBuilt | NotFound | Found(field: Field)

  /** The rows for the fields from position `at` on, in the order of the buffer. */
  function Rows(b: seq<Byte>, at: nat, left: nat): seq<IndexEntry>
    requires at <= |b|
    decreases |b| - at
  {
    if at + HEADER_SIZE > |b| || left == 0 then []
    else
      var n := RawLength(b[at..]);
      if n > MAX_FIELD_SIZE || n > |b| - at - HEADER_SIZE then []
      else [IndexEntry(RawTag(b[at..]), at)] + Rows(b, at + HEADER_SIZE + n, left - 1)
  }

  lemma {:induction false} RowsPoint(b: seq<Byte>, at: nat, left: nat)
    requires at <= |b|
    ensures var rows, fs := Rows(b, at, left), Walk(b[at..], left, MAX_FIELD_SIZE).fields;
      |rows| == |fs| && forall i | 0 <= i < |rows| :: PointsTo(b, rows[i], fs[i])
    decreases |b| - at
  {
    match Peek(b[at..], left, MAX_FIELD_SIZE)
    case Got(f) =>
      var next := at + HEADER_SIZE + |f.value|;
      assert b[at..][HEADER_SIZE + |f.value|..] == b[next..];
      RowsPoint(b, next, left - 1);
    case _ =>
  }

  /** The row says where in b the field f begins, and its tag. */
  ghost predicate PointsTo(b: seq<Byte>, row: IndexEntry, f: Field) {
    row.at <= |b| && row.tag == f.tag && Peek(b[row.at..], 1, MAX_FIELD_SIZE) == Got(f)
  }

  ghost predicate Covers(b: seq<Byte>, rows: seq<IndexEntry>, fs: seq<Field>) {
    |rows| == |fs|
    && (forall row | row in rows :: exists f :: f in fs && PointsTo(b, row, f))
    && (forall f | f in fs :: exists row :: row in rows && PointsTo(b, row, f))
  }

  predicate SortedByTag(rows: seq<IndexEntry>) {
    forall i, j | 0 <= i < j < |rows| :: rows[i].tag <= rows[j].tag
  }

  lemma CoversAnyOrder(b: seq<Byte>, rows: seq<IndexEntry>, sorted: seq<IndexEntry>, fs: seq<Field>)
    requires |rows| == |fs| && forall i | 0 <= i < |rows| :: PointsTo(b, rows[i], fs[i])
    requires multiset(sorted) == multiset(rows)
    ensures Covers(b, sorted, fs)
  {
    assert |multiset(sorted)| == |multiset(rows)|;
    forall row | row in sorted
      ensures exists f :: f in fs && PointsTo(b, row, f)
    {
      assert row in multiset(rows);
      var i :| 0 <= i < |rows| && rows[i] == row;
      assert fs[i] in fs && PointsTo(b, row, fs[i]);
    }
    forall f | f in fs
      ensures exists row :: row in sorted && PointsTo(b, row, f)
    {
      var i :| 0 <= i < |fs| && fs[i] == f;
      assert rows[i] in multiset(sorted);
      assert rows[i] in sorted && PointsTo(b, rows[i], f);
    }
  }

  /** Any order within equal tags will do: callers know only that the result is sorted. */
  method SortByTag(rows: seq<IndexEntry>) returns (sorted: seq<IndexEntry>)
    ensures SortedByTag(sorted) && multiset(sorted) == multiset(rows)
  {
    sorted := [];
    for i := 0 to |rows|
      invariant SortedByTag(sorted) && multiset(sorted) == multiset(rows[..i])
    {
      assert rows[..i + 1] == rows[..i] + [rows[i]];
      sorted := Inserted(sorted, rows[i]);
    }
    assert rows[..|rows|] == rows;
  }

  function Inserted(rows: seq<IndexEntry>, row: IndexEntry): (r: seq<IndexEntry>)
    requires SortedByTag(rows)
    ensures SortedByTag(r) && multiset(r) == multiset(rows) + multiset{row}
  {
    if rows == [] then [row]
    else
      var front, last := rows[..|rows| - 1], rows[|rows| - 1];
      assert rows == front + [last];
      if last.tag <= row.tag then rows + [row] else
        var r := Inserted(front, row);
        TagsBelow(r, front, row, last.tag);
        r + [last]
  }

  lemma TagsBelow(r: seq<IndexEntry>, rows: seq<IndexEntry>, row: IndexEntry, tag: nat)
    requires multiset(r) == multiset(rows) + multiset{row}
    requires row.tag <= tag && forall i | 0 <= i < |rows| :: rows[i].tag <= tag
    ensures forall i | 0 <= i < |r| :: r[i].tag <= tag
  {
    forall i | 0 <= i < |r|
      ensures r[i].tag <= tag
    {
      assert r[i] in multiset(r);
    }
  }

  lemma NoRowNoField(b: seq<Byte>, rows: seq<IndexEntry>, fs: seq<Field>, tag: nat)
    requires Covers(b, rows, fs)
    requires forall i | 0 <= i < |rows| :: rows[i].tag != tag
    ensures FirstWithTag(fs, tag) == None
  {
    forall f | f in fs
      ensures f.tag != tag
    {
      var row :| row in rows && PointsTo(b, row, f);
    }
    FirstWithTagIs(fs, tag);
  }

  lemma {:induction false} FirstWithTagIs(fs: seq<Field>, tag: nat)
    ensures FirstWithTag(fs, tag) == None <==> forall f | f in fs :: f.tag != tag
    ensures FirstWithTag(fs, tag).Some? ==>
      FirstWithTag(fs, tag).value in fs && FirstWithTag(fs, tag).value.tag == tag
  {
    if fs != [] {
      FirstWithTagIs(fs[1..], tag);
      assert fs == [fs[0]] + fs[1..];
    }
  }

  /** The sequential decoder returns what the index covers, cut short only by the string limit. */
  /** The string limit only ever refuses a field. */
  lemma PeekCut(b: seq<Byte>, left: nat, maxString: nat)
    ensures match Peek(b, left, MAX_FIELD_SIZE)
      case Got(f) => left > 0 && if TooLong(f.kind, |f.value|, maxString) then !Peek(b, left, maxString).Got?
                                 else Peek(b, left, maxString) == Got(f)
      case _ => !Peek(b, left, maxString).Got?
  {
  }

  lemma {:induction false} IndexCoversWalk(b: seq<Byte>, left: nat, maxString: nat)
    ensures Walk(b, left, maxString).fields == Admitted(Walk(b, left, MAX_FIELD_SIZE).fields, left, maxString)
    decreases |b|
  {
    PeekCut(b, left, maxString);
    match Peek(b, left, MAX_FIELD_SIZE)
    case Got(f) =>
      var rest := b[HEADER_SIZE + |f.value|..];
      var ws := Walk(rest, left - 1, MAX_FIELD_SIZE).fields;
      IndexCoversWalk(rest, left - 1, maxString);
      assert Walk(b, left, MAX_FIELD_SIZE).fields == [f] + ws && ([f] + ws)[1..] == ws;
    case _ =>
  }

  /** No field is longer than the string limit allows. */
  predicate StringsWithin(fs: seq<Field>, maxString: nat) {
    forall i | 0 <= i < |fs| :: !TooLong(fs[i].kind, |fs[i].value|, maxString)
  }

  /** The string limit cuts nothing off exactly when no field the index covers is over it. */
  lemma {:induction false} AdmittedIff(fs: seq<Field>, left: nat, maxString: nat)
    requires |fs| <= left
    ensures Admitted(fs, left, maxString) == fs <==> StringsWithin(fs, maxString)
  {
    if fs != [] {
      AdmittedIff(fs[1..], left - 1, maxString);
      AdmittedWhole(fs, left, maxString);
      assert StringsWithin(fs, maxString) <==>
        !TooLong(fs[0].kind, |fs[0].value|, maxString) && StringsWithin(fs[1..], maxString) by {
        assert fs == [fs[0]] + fs[1..];
      }
    }
  }

  lemma SameFieldsIff(b: seq<Byte>, left: nat, maxString: nat)
    ensures Walk(b, left, maxString).fields == Walk(b, left, MAX_FIELD_SIZE).fields <==>
      StringsWithin(Walk(b, left, MAX_FIELD_SIZE).fields, maxString)
  {
    IndexCoversWalk(b, left, maxString);
    WalkWithinLimits(b, left, MAX_FIELD_SIZE);
    AdmittedIff(Walk(b, left, MAX_FIELD_SIZE).fields, left, maxString);
  }

  /** How often a tag occurs. */
  function CountTag(fs: seq<Field>, tag: nat): nat {
    if fs == [] then 0 else (if fs[0].tag == tag then 1 else 0) + CountTag(fs[1..], tag)
  }

  lemma {:induction false} OnlyOne(fs: seq<Field>, tag: nat, f: Field)
    requires CountTag(fs, tag) <= 1 && f in fs && f.tag == tag
    ensures FirstWithTag(fs, tag) == Some(f)
  {
    assert fs == [fs[0]] + fs[1..];
    if fs[0].tag != tag {
      OnlyOne(fs[1..], tag, f);
    } else if f in fs[1..] {
      Occurs(fs[1..], tag, f);
    }
  }

  lemma {:induction false} Occurs(fs: seq<Field>, tag: nat, f: Field)
    requires f in fs && f.tag == tag
    ensures CountTag(fs, tag) >= 1
  {
    assert fs == [fs[0]] + fs[1..];
    if fs[0].tag != tag {
      Occurs(fs[1..], tag, f);
    }
  }

  /** Both searches of one decoder.  Where no field is over the string limit they agree on whether there is a field
      with the tag, and on the field itself when the tag occurs once. */
  method SearchBothWays(bytes: seq<Byte>, maxFields: nat, maxString: nat, tag: nat)
    returns (scan: Option<Field>, indexed: Lookup)
    ensures var fields := Walk(bytes, FieldLimit(maxFields), MAX_FIELD_SIZE).fields;
      StringsWithin(fields, StringLimit(maxString)) ==>
        indexed != NotBuilt && (indexed == NotFound <==> scan == None)
        && (CountTag(fields, tag) == 1 ==> scan.Some? && indexed == Found(scan.value))
        && (scan == None <==> CountTag(fields, tag) == 0)
  {
    var dec := new Decoder(bytes, maxFields, maxString);
    dec.BuildIndex();
    SameFieldsIff(bytes, dec.maxFields, dec.maxString);
    indexed := dec.FindIndexed(tag);
    scan := dec.FindField(tag);
    FirstWithTagIs(dec.Indexed(), tag);
    CountOfNone(dec.Indexed(), tag);
    if indexed.Found? && CountTag(dec.Indexed(), tag) == 1 {
      OnlyOne(dec.Indexed(), tag, indexed.field);
    }
  }

  lemma {:induction false} CountOfNone(fs: seq<Field>, tag: nat)
    ensures CountTag(fs, tag) == 0 <==> FirstWithTag(fs, tag) == None
  {
    if fs != [] {
      CountOfNone(fs[1..], tag);
    }
  }

  function FirstWithTag(fs: seq<Field>, tag: nat): Option<Field> {
    if fs == [] then None else if fs[0].tag == tag then Some(fs[0]) else FirstWithTag(fs[1..], tag)
  }

  // --------------------------------------------------------------- validator

  /** The walk no configured limit cuts short. */
  function Unlimited(b: seq<Byte>): Walked { Walk(b, |b|, MAX_FIELD_SIZE) }

  lemma {:induction false} EnoughLeft(b: seq<Byte>, m: nat, n: nat)
    requires m >= |b| && n >= |b|
    ensures Walk(b, m, MAX_FIELD_SIZE) == Walk(b, n, MAX_FIELD_SIZE)
    decreases |b|
  {
    match Peek(b, m, MAX_FIELD_SIZE)
    case Got(f) =>
      assert Peek(b, n, MAX_FIELD_SIZE) == Got(f);
      EnoughLeft(b[HEADER_SIZE + |f.value|..], m - 1, n - 1);
    case _ =>
  }

  /** One turn of the validator's loop. */
  lemma UnlimitedStep(rest: seq<Byte>)
    requires rest != []
    ensures |rest| < HEADER_SIZE ==> Unlimited(rest).end == Invalid
    ensures |rest| >= HEADER_SIZE ==>
      var n := RawLength(rest);
      if n > MAX_FIELD_SIZE || n > |rest| - HEADER_SIZE then Unlimited(rest).end == Invalid
      else Unlimited(rest).end == Unlimited(rest[HEADER_SIZE + n..]).end
  {
    if |rest| >= HEADER_SIZE {
      var n := RawLength(rest);
      if n <= MAX_FIELD_SIZE && n <= |rest| - HEADER_SIZE {
        var next := rest[HEADER_SIZE + n..];
        EnoughLeft(next, |rest| - 1, |next|);
      }
    }
  }

  lemma UnlimitedFrom(b: seq<Byte>, at: nat)
    requires at < |b|
    ensures at + HEADER_SIZE > |b| ==> Unlimited(b[at..]).end == Invalid
    ensures at + HEADER_SIZE <= |b| ==>
      var n := FromBig(b[at + 3..at + 7]);
      if n > MAX_FIELD_SIZE || n > |b| - at - HEADER_SIZE then Unlimited(b[at..]).end == Invalid
      else Unlimited(b[at..]).end == Unlimited(b[at + HEADER_SIZE + n..]).end
  {
    var rest := b[at..];
    UnlimitedStep(rest);
    if at + HEADER_SIZE <= |b| {
      assert rest[3..7] == b[at + 3..at + 7];
      var n := RawLength(rest);
      if n <= MAX_FIELD_SIZE && n <= |b| - at - HEADER_SIZE {
        assert b[at + HEADER_SIZE + n..] == rest[HEADER_SIZE + n..];
      }
    }
  }

  method Validate(buffer: seq<Byte>) returns (ok: bool)
    ensures ok <==> Unlimited(buffer).end == Eof
  {
    if buffer == [] { return true; }
    var offset := 0;
    assert buffer[0..] == buffer;
    while offset < |buffer|
      invariant 0 <= offset <= |buffer|
      invariant Unlimited(buffer[offset..]).end == Unlimited(buffer).end
      decreases |buffer| - offset
    {
      UnlimitedFrom(buffer, offset);
      if offset + HEADER_SIZE > |buffer| { return false; }
      var length := FromBig(buffer[offset + 3..offset + 7]);
      if length > MAX_FIELD_SIZE { return false; }
      if length > |buffer| - offset - HEADER_SIZE { return false; }
      offset := offset + HEADER_SIZE + length;
    }
    return true;
  }

  /** The validator accepts exactly the encodings of field lists. */
  lemma ValidIsEncoding(b: seq<Byte>)
    ensures Unlimited(b).end == Eof <==> exists fs :: AllFit(fs) && EncodeFields(fs) == b
  {
    EncodedOfWalk(b, |b|, MAX_FIELD_SIZE);
    if Unlimited(b).end == Eof {
      var fs := Unlimited(b).fields;
      assert AllFit(fs) && EncodeFields(fs) == b;
    }
    if fs :| AllFit(fs) && EncodeFields(fs) == b {
      EncodingIsAdmitted(fs);
      WalkOfEncoded(fs, |b|, MAX_FIELD_SIZE);
    }
  }

  lemma {:induction false} EncodingIsLonger(fs: seq<Field>)
    requires AllFit(fs)
    ensures |fs| <= |EncodeFields(fs)|
  {
    if fs != [] {
      EncodingIsLonger(fs[1..]);
    }
  }

  lemma {:induction false} AdmittedAll(fs: seq<Field>, left: nat, maxString: nat)
    requires |fs| <= left
    requires forall i | 0 <= i < |fs| :: !TooLong(fs[i].kind, |fs[i].value|, maxString)
    ensures Admitted(fs, left, maxString) == fs
  {
    if fs != [] {
      AdmittedAll(fs[1..], left - 1, maxString);
    }
  }

  lemma EncodingIsAdmitted(fs: seq<Field>)
    requires AllFit(fs)
    ensures Admitted(fs, |EncodeFields(fs)|, MAX_FIELD_SIZE) == fs
  {
    EncodingIsLonger(fs);
    AdmittedAll(fs, |EncodeFields(fs)|, MAX_FIELD_SIZE);
  }
}
