// The AppendEntries message on the wire: a list of fields in which every log entry is a field holding an encoded
// list of fields of its own.  Encoder errors are ignored and decoding simply stops where a limit is hit, so what
// arrives is given for every message, and from it exactly which messages survive.

module AppendEntriesWire {
  import opened Basics
  import opened Tlv
  import opened TlvCoder

  const FIELD_TERM: nat := 0x0101
  const FIELD_LEADER_ID: nat := 0x0106
  const FIELD_PREV_LOG_INDEX: nat := 0x0107
  const FIELD_PREV_LOG_TERM: nat := 0x0108
  const FIELD_ENTRIES: nat := 0x0109
  const FIELD_LEADER_COMMIT: nat := 0x010A
  const FIELD_ENTRY_INDEX: nat := 0x0110
  const FIELD_ENTRY_TERM: nat := 0x0111
  const FIELD_ENTRY_TYPE: nat := 0x0112
  const FIELD_ENTRY_DATA: nat := 0x0113

  type Word32 = x: int | 0 <= x < 0x1_0000_0000

  datatype WireEntry = WireEntry(index: Word32, term: Word32, kind: Byte, data: seq<Byte>)

  datatype AppendEntries = AppendEntries(
    term: Word32, leaderId: seq<Byte>, prevIndex: Word32, prevTerm: Word32, commit: Word32, entries: seq<WireEntry>)

  const LEADER_ID_SIZE: nat := 64

  /** A string that fits its buffer with its terminator. */
  predicate IsString(s: seq<Byte>) { |s| < LEADER_ID_SIZE && 0 !in s }

  // ------------------------------------------------------------ serialising

  function Uint32Field(tag: nat, x: Word32): Field { Field(UINT32, tag, Big(x, 4)) }

  function EntryHead(e: WireEntry): seq<Field> {
    [Uint32Field(FIELD_ENTRY_INDEX, e.index), Uint32Field(FIELD_ENTRY_TERM, e.term),
     Field(UINT8, FIELD_ENTRY_TYPE, [e.kind])]
  }

  /** A value larger than a field may be is silently left out. */
  function EntryFields(e: WireEntry): (fs: seq<Field>)
    ensures AllFit(fs)
  {
    EntryHead(e) + if 0 < |e.data| <= MAX_FIELD_SIZE then [Field(BYTES, FIELD_ENTRY_DATA, e.data)] else []
  }

  function Blob(e: WireEntry): seq<Byte> { EncodeFields(EntryFields(e)) }

  function EntriesFields(es: seq<WireEntry>): (fs: seq<Field>)
    ensures AllFit(fs)
  {
    if es == [] then []
    else if |Blob(es[0])| <= MAX_FIELD_SIZE then [Field(BYTES, FIELD_ENTRIES, Blob(es[0]))] + EntriesFields(es[1..])
    else EntriesFields(es[1..])
  }

  function HeadFields(m: AppendEntries): (fs: seq<Field>)
    requires IsString(m.leaderId)
    ensures AllFit(fs) && |fs| == 5
  {
    [Uint32Field(FIELD_TERM, m.term), Field(STRING, FIELD_LEADER_ID, m.leaderId + [0]),
     Uint32Field(FIELD_PREV_LOG_INDEX, m.prevIndex), Uint32Field(FIELD_PREV_LOG_TERM, m.prevTerm),
     Uint32Field(FIELD_LEADER_COMMIT, m.commit)]
  }

  function MessageFields(m: AppendEntries): (fs: seq<Field>)
    requires IsString(m.leaderId)
    ensures AllFit(fs)
  {
    HeadFields(m) + EntriesFields(m.entries)
  }

  function Serialized(m: AppendEntries): seq<Byte>
    requires IsString(m.leaderId)
  {
    EncodeFields(MessageFields(m))
  }

  /** The bytes of a message start with its term as field 0x0101 of type 3, those of an entry with its index as field
      0x0110 of type 3. */
  lemma WireStarts(m: AppendEntries, e: WireEntry)
    requires IsString(m.leaderId)
    ensures var b := Serialized(m); |b| >= 11 && b[..7] == [3, 1, 1, 0, 0, 0, 4] && b[7..11] == Big(m.term, 4)
    ensures var b := Blob(e); |b| >= 11 && b[..7] == [3, 1, 0x10, 0, 0, 0, 4] && b[7..11] == Big(e.index, 4)
  {
    StartsWithField(Uint32Field(FIELD_TERM, m.term), MessageFields(m));
    StartsWithField(Uint32Field(FIELD_ENTRY_INDEX, e.index), EntryFields(e));
  }

  lemma StartsWithField(f: Field, fs: seq<Field>)
    requires AllFit(fs) && fs != [] && fs[0] == f && |f.value| == 4
    ensures var b := EncodeFields(fs);
      && |b| >= 11 && b[0] == f.kind && b[1..3] == Big(f.tag, 2) && b[3..7] == [0, 0, 0, 4] && b[7..11] == f.value
      && b[..7] == [f.kind] + Big(f.tag, 2) + [0, 0, 0, 4]
  {
    var b := EncodeField(f) + EncodeFields(fs[1..]);
    assert EncodeFields(fs) == b;
    FourInFour();
    assert b[..7] == EncodeField(f)[..7] == [f.kind] + Big(f.tag, 2) + Big(4, 4);
    assert b[7..11] == EncodeField(f)[7..];
  }

  lemma FourInFour()
    ensures Big(4, 4) == [0, 0, 0, 4]
    ensures Big(FIELD_TERM, 2) == [1, 1] && Big(FIELD_ENTRY_INDEX, 2) == [1, 0x10]
  {
    BigBytes(4);
    BigBytes(FIELD_TERM);
    BigBytes(FIELD_ENTRY_INDEX);
  }

  // ---------------------------------------------------------- deserialising

  function GetUint32(f: Field): Word32 {
    PowersOf();
    if f.kind != UINT32 || |f.value| < 4 then 0 else FromBig(f.value[..4])
  }

  function GetUint8(f: Field): Byte {
    if f.kind != UINT8 || |f.value| < 1 then 0 else f.value[0]
  }

  /** The bytes before the first zero. */
  function UpToZero(s: seq<Byte>): seq<Byte> {
    if s == [] || s[0] == 0 then [] else [s[0]] + UpToZero(s[1..])
  }

  /** At most n of them. */
  function CString(s: seq<Byte>, n: nat): seq<Byte> {
    var t := UpToZero(s);
    if |t| <= n then t else t[..n]
  }

  function EntryStep(e: WireEntry, f: Field): WireEntry {
    if f.tag == FIELD_ENTRY_INDEX then e.(index := GetUint32(f))
    else if f.tag == FIELD_ENTRY_TERM then e.(term := GetUint32(f))
    else if f.tag == FIELD_ENTRY_TYPE then e.(kind := GetUint8(f))
    else if f.tag == FIELD_ENTRY_DATA && f.kind == BYTES && |f.value| > 0 then e.(data := f.value)
    else e
  }

  const BLANK_ENTRY := WireEntry(0, 0, 0, [])

  function EntryFold(e: WireEntry, fs: seq<Field>): WireEntry
    decreases fs
  {
    if fs == [] then e else EntryFold(EntryStep(e, fs[0]), fs[1..])
  }

  function DefaultWalk(b: seq<Byte>): Walked { Walk(b, DEFAULT_MAX_FIELDS, DEFAULT_MAX_STRING) }

  function DecodedEntry(blob: seq<Byte>): WireEntry { EntryFold(BLANK_ENTRY, DefaultWalk(blob).fields) }

  /** The message so far and which of the required fields have been seen. */
  datatype Partial = Partial(m: AppendEntries, seen: set<nat>)

  const REQUIRED := {FIELD_TERM, FIELD_LEADER_ID, FIELD_PREV_LOG_INDEX, FIELD_PREV_LOG_TERM, FIELD_LEADER_COMMIT}

  function MessageStep(p: Partial, f: Field): Partial {
    if f.tag == FIELD_TERM then Partial(p.m.(term := GetUint32(f)), p.seen + {f.tag})
    else if f.tag == FIELD_LEADER_ID then
      Partial(if f.kind == STRING && |f.value| > 0 then p.m.(leaderId := CString(f.value, LEADER_ID_SIZE - 1)) else p.m,
              p.seen + {f.tag})
    else if f.tag == FIELD_PREV_LOG_INDEX then Partial(p.m.(prevIndex := GetUint32(f)), p.seen + {f.tag})
    else if f.tag == FIELD_PREV_LOG_TERM then Partial(p.m.(prevTerm := GetUint32(f)), p.seen + {f.tag})
    else if f.tag == FIELD_LEADER_COMMIT then Partial(p.m.(commit := GetUint32(f)), p.seen + {f.tag})
    else if f.tag == FIELD_ENTRIES then p.(m := p.m.(entries := p.m.entries + [DecodedEntry(f.value)]))
    else p
  }

  const BLANK := Partial(AppendEntries(0, [], 0, 0, 0, []), {})

  function MessageFold(p: Partial, fs: seq<Field>): Partial
    decreases fs
  {
    if fs == [] then p else MessageFold(MessageStep(p, fs[0]), fs[1..])
  }

  datatype Reply = Ok(m: AppendEntries) | InvalidArg | InvalidFormat

  function Deserialized(b: seq<Byte>): Reply {
    if b == [] then InvalidArg
    else if Unlimited(b).end != Eof then InvalidFormat
    else
      var p := MessageFold(BLANK, DefaultWalk(b).fields);
      if REQUIRED <= p.seen then Ok(p.m) else InvalidFormat
  }

  // --------------------------------------------------------------- one entry

  /** What is left of an entry whose data the encoder may have dropped. */
  function Kept(e: WireEntry): WireEntry { if |e.data| <= MAX_FIELD_SIZE then e else e.(data := []) }

  lemma Uint32Read(tag: nat, x: Word32)
    ensures GetUint32(Uint32Field(tag, x)) == x
  {
    PowersOf();
    FromBigOfBig(x, 4);
    assert Big(x, 4)[..4] == Big(x, 4);
  }

  lemma BlobSize(e: WireEntry)
    ensures |Blob(e)| == if 0 < |e.data| <= MAX_FIELD_SIZE then 37 + |e.data| else 30
  {
    var head := EntryHead(e);
    EncodeFieldsOneMore(head[2], []);
    EncodeFieldsOneMore(head[1], [head[2]]);
    EncodeFieldsOneMore(head[0], [head[1], head[2]]);
    assert head == [head[0]] + [head[1], head[2]] && [head[1], head[2]] == [head[1]] + [head[2]];
    assert [head[2]] == [head[2]] + [];
    if 0 < |e.data| <= MAX_FIELD_SIZE {
      var f := Field(BYTES, FIELD_ENTRY_DATA, e.data);
      EncodeFieldsSplit(head, [f]);
      assert [f][1..] == [];
    } else {
      assert EntryFields(e) == head;
    }
  }

  /** An entry field the decoder admits reads back as the entry. */
  lemma EntryRoundTrip(e: WireEntry)
    requires |Blob(e)| <= DEFAULT_MAX_STRING
    ensures DecodedEntry(Blob(e)) == Kept(e)
  {
    var fs := EntryFields(e);
    BlobSize(e);
    AdmittedAll(fs, DEFAULT_MAX_FIELDS, DEFAULT_MAX_STRING);
    WalkOfEncoded(fs, DEFAULT_MAX_FIELDS, DEFAULT_MAX_STRING);
    EntryFromFields(e);
  }

  lemma EntryFoldStep(e: WireEntry, f: Field, fs: seq<Field>)
    ensures EntryFold(e, [f] + fs) == EntryFold(EntryStep(e, f), fs)
  {
    assert ([f] + fs)[1..] == fs;
  }

  lemma EntryFromFields(e: WireEntry)
    ensures EntryFold(BLANK_ENTRY, EntryFields(e)) == Kept(e)
  {
    var head := EntryHead(e);
    var tail := if 0 < |e.data| <= MAX_FIELD_SIZE then [Field(BYTES, FIELD_ENTRY_DATA, e.data)] else [];
    assert EntryFields(e) == [head[0]] + ([head[1]] + ([head[2]] + tail));
    Uint32Read(FIELD_ENTRY_INDEX, e.index);
    Uint32Read(FIELD_ENTRY_TERM, e.term);
    EntryFoldStep(BLANK_ENTRY, head[0], [head[1]] + ([head[2]] + tail));
    EntryFoldStep(BLANK_ENTRY.(index := e.index), head[1], [head[2]] + tail);
    EntryFoldStep(BLANK_ENTRY.(index := e.index, term := e.term), head[2], tail);
    EntryFoldTail(WireEntry(e.index, e.term, e.kind, []), e);
  }

  lemma EntryFoldTail(soFar: WireEntry, e: WireEntry)
    requires soFar == e.(data := [])
    ensures EntryFold(soFar, if 0 < |e.data| <= MAX_FIELD_SIZE then [Field(BYTES, FIELD_ENTRY_DATA, e.data)] else [])
         == Kept(e)
  {
    var f := Field(BYTES, FIELD_ENTRY_DATA, e.data);
    EntryFoldStep(soFar, f, []);
    assert [f] + [] == [f];
  }

  // ------------------------------------------------------------- the message

  /** The entries that arrive when the decoder takes `left` more fields: those the encoder dropped are missing, and
      nothing comes after the first one over a limit. */
  function Received(es: seq<WireEntry>, left: nat): seq<WireEntry> {
    if es == [] then []
    else if |Blob(es[0])| > MAX_FIELD_SIZE then Received(es[1..], left)
    else if left == 0 || |Blob(es[0])| > DEFAULT_MAX_STRING then []
    else [Kept(es[0])] + Received(es[1..], left - 1)
  }

  function DecodedAll(fs: seq<Field>): seq<WireEntry> {
    seq(|fs|, i requires 0 <= i < |fs| => DecodedEntry(fs[i].value))
  }

  lemma DecodedAllOneMore(f: Field, fs: seq<Field>)
    ensures DecodedAll([f] + fs) == [DecodedEntry(f.value)] + DecodedAll(fs)
  {
  }

  lemma AdmittedOneMore(f: Field, fs: seq<Field>, left: nat)
    requires f.kind == BYTES
    ensures Admitted([f] + fs, left, DEFAULT_MAX_STRING)
         == if left == 0 || |f.value| > DEFAULT_MAX_STRING then [] else [f] + Admitted(fs, left - 1, DEFAULT_MAX_STRING)
  {
    assert ([f] + fs)[1..] == fs;
  }

  lemma {:induction false} AdmittedEntries(es: seq<WireEntry>, left: nat)
    ensures var fs := Admitted(EntriesFields(es), left, DEFAULT_MAX_STRING);
      DecodedAll(fs) == Received(es, left) && forall i | 0 <= i < |fs| :: fs[i].tag == FIELD_ENTRIES
  {
    if es != [] {
      if |Blob(es[0])| > MAX_FIELD_SIZE {
        AdmittedEntries(es[1..], left);
      } else {
        var f, fs := Field(BYTES, FIELD_ENTRIES, Blob(es[0])), EntriesFields(es[1..]);
        AdmittedOneMore(f, fs, left);
        if left > 0 && |Blob(es[0])| <= DEFAULT_MAX_STRING {
          AdmittedEntries(es[1..], left - 1);
          EntryRoundTrip(es[0]);
          DecodedAllOneMore(f, Admitted(fs, left - 1, DEFAULT_MAX_STRING));
        }
      }
    }
  }

  function Extend(p: Partial, es: seq<WireEntry>): Partial { p.(m := p.m.(entries := p.m.entries + es)) }

  lemma EntryAdds(p: Partial, es: seq<WireEntry>, f: Field)
    requires f.tag == FIELD_ENTRIES
    ensures MessageStep(Extend(p, es), f) == Extend(p, es + [DecodedEntry(f.value)])
  {
    assert p.m.entries + es + [DecodedEntry(f.value)] == p.m.entries + (es + [DecodedEntry(f.value)]);
  }

  /** Entry fields add their entries in order. */
  lemma {:induction false} EntriesCollected(p: Partial, fs: seq<Field>, es: seq<WireEntry>)
    requires forall i | 0 <= i < |fs| :: fs[i].tag == FIELD_ENTRIES
    ensures MessageFold(Extend(p, es), fs) == Extend(p, es + DecodedAll(fs))
    decreases fs
  {
    if fs == [] {
      assert es + DecodedAll(fs) == es;
    } else {
      EntryAdds(p, es, fs[0]);
      EntriesCollected(p, fs[1..], es + [DecodedEntry(fs[0].value)]);
      assert es + DecodedAll(fs) == es + [DecodedEntry(fs[0].value)] + DecodedAll(fs[1..]);
    }
  }

  lemma {:induction false} FoldSplit(p: Partial, fs: seq<Field>, gs: seq<Field>)
    ensures MessageFold(p, fs + gs) == MessageFold(MessageFold(p, fs), gs)
    decreases fs
  {
    if fs == [] {
      assert fs + gs == gs;
    } else {
      FoldSplit(MessageStep(p, fs[0]), fs[1..], gs);
      assert (fs + gs)[1..] == fs[1..] + gs;
    }
  }

  lemma {:induction false} UpToZeroOf(s: seq<Byte>)
    requires 0 !in s
    ensures UpToZero(s + [0]) == s
  {
    if s != [] {
      UpToZeroOf(s[1..]);
      assert (s + [0])[1..] == s[1..] + [0];
    }
  }

  lemma HeadCollected(m: AppendEntries)
    requires IsString(m.leaderId)
    ensures MessageFold(BLANK, HeadFields(m)) == Partial(m.(entries := []), REQUIRED)
  {
    UpToZeroOf(m.leaderId);
    Uint32Read(FIELD_TERM, m.term);
    Uint32Read(FIELD_PREV_LOG_INDEX, m.prevIndex);
    Uint32Read(FIELD_PREV_LOG_TERM, m.prevTerm);
    Uint32Read(FIELD_LEADER_COMMIT, m.commit);
    FiveSteps(HeadFields(m));
  }

  lemma FiveSteps(fs: seq<Field>)
    requires |fs| == 5
    ensures MessageFold(BLANK, fs) ==
      MessageStep(MessageStep(MessageStep(MessageStep(MessageStep(BLANK, fs[0]), fs[1]), fs[2]), fs[3]), fs[4])
  {
    var p1 := MessageStep(BLANK, fs[0]);
    var p2 := MessageStep(p1, fs[1]);
    var p3 := MessageStep(p2, fs[2]);
    var p4 := MessageStep(p3, fs[3]);
    assert MessageFold(BLANK, fs) == MessageFold(p1, fs[1..]);
    assert fs[1..][1..] == fs[2..] && MessageFold(p1, fs[1..]) == MessageFold(p2, fs[2..]);
    assert fs[2..][1..] == fs[3..] && MessageFold(p2, fs[2..]) == MessageFold(p3, fs[3..]);
    assert fs[3..][1..] == fs[4..] && MessageFold(p3, fs[3..]) == MessageFold(p4, fs[4..]);
    assert fs[4..][1..] == [] && MessageFold(p4, fs[4..]) == MessageFold(MessageStep(p4, fs[4]), []);
  }

  lemma {:induction false} AdmittedAfter(head: seq<Field>, fs: seq<Field>, left: nat, maxString: nat)
    requires |head| <= left
    requires forall i | 0 <= i < |head| :: !TooLong(head[i].kind, |head[i].value|, maxString)
    ensures Admitted(head + fs, left, maxString) == head + Admitted(fs, left - |head|, maxString)
  {
    if head == [] {
      assert head + fs == fs;
    } else {
      AdmittedAfter(head[1..], fs, left - 1, maxString);
      assert (head + fs)[1..] == head[1..] + fs;
    }
  }

  /** How many entry fields fit beside the five fields of the head. */
  const MAX_ENTRIES: nat := 507

  lemma MessageFromAdmitted(m: AppendEntries)
    requires IsString(m.leaderId)
    ensures MessageFold(BLANK, Admitted(MessageFields(m), DEFAULT_MAX_FIELDS, DEFAULT_MAX_STRING))
         == Partial(m.(entries := Received(m.entries, MAX_ENTRIES)), REQUIRED)
  {
    var fs := EntriesFields(m.entries);
    AdmittedAfter(HeadFields(m), fs, DEFAULT_MAX_FIELDS, DEFAULT_MAX_STRING);
    AdmittedEntries(m.entries, MAX_ENTRIES);
    FoldSplit(BLANK, HeadFields(m), Admitted(fs, MAX_ENTRIES, DEFAULT_MAX_STRING));
    HeadCollected(m);
    var p := Partial(m.(entries := []), REQUIRED);
    assert Extend(p, []) == p;
    EntriesCollected(p, Admitted(fs, MAX_ENTRIES, DEFAULT_MAX_STRING), []);
    assert Extend(p, [] + Received(m.entries, MAX_ENTRIES)).m.entries == Received(m.entries, MAX_ENTRIES);
  }

  /** A non-empty list of fields encodes into a buffer that passes validation. */
  lemma EncodedIsValid(fs: seq<Field>)
    requires AllFit(fs) && fs != []
    ensures EncodeFields(fs) != [] && Unlimited(EncodeFields(fs)).end == Eof
    ensures DefaultWalk(EncodeFields(fs)).fields == Admitted(fs, DEFAULT_MAX_FIELDS, DEFAULT_MAX_STRING)
  {
    ValidIsEncoding(EncodeFields(fs));
    EncodingIsLonger(fs);
    WalkOfEncoded(fs, DEFAULT_MAX_FIELDS, DEFAULT_MAX_STRING);
  }

  /** What arrives, for every message: the head always, the entries as far as the limits go. */
  lemma WhatArrives(m: AppendEntries)
    requires IsString(m.leaderId)
    ensures Deserialized(Serialized(m)) == Ok(m.(entries := Received(m.entries, MAX_ENTRIES)))
  {
    EncodedIsValid(MessageFields(m));
    MessageFromAdmitted(m);
  }

  lemma {:induction false} ReceivedAtMost(es: seq<WireEntry>, left: nat)
    ensures |Received(es, left)| <= |es| && |Received(es, left)| <= left
  {
    if es != [] {
      if |Blob(es[0])| > MAX_FIELD_SIZE {
        ReceivedAtMost(es[1..], left);
      } else if left > 0 {
        ReceivedAtMost(es[1..], left - 1);
      }
    }
  }

  /** The largest data an entry can carry over the wire. */
  const MAX_DATA: nat := DEFAULT_MAX_STRING - 37

  lemma {:induction false} AllReceivedIff(es: seq<WireEntry>, left: nat)
    ensures Received(es, left) == es <==> |es| <= left && forall i | 0 <= i < |es| :: |es[i].data| <= MAX_DATA
  {
    if es != [] {
      BlobSize(es[0]);
      assert es == [es[0]] + es[1..];
      if |Blob(es[0])| > MAX_FIELD_SIZE {
        ReceivedAtMost(es[1..], left);
      } else if left > 0 && |Blob(es[0])| <= DEFAULT_MAX_STRING {
        AllReceivedIff(es[1..], left - 1);
        assert Received(es, left)[1..] == Received(es[1..], left - 1);
      }
    }
  }

  /** A message survives the wire exactly when it has at most 507 entries, none with more than MAX_DATA bytes. */
  lemma RoundTripIff(m: AppendEntries)
    requires IsString(m.leaderId)
    ensures Deserialized(Serialized(m)) == Ok(m) <==>
      |m.entries| <= MAX_ENTRIES && forall i | 0 <= i < |m.entries| :: |m.entries[i].data| <= MAX_DATA
  {
    WhatArrives(m);
    AllReceivedIff(m.entries, MAX_ENTRIES);
    assert m.(entries := m.entries) == m;
  }

  /** When every entry is small, the loss is a cut: the first 507 arrive and the message still reports success. */
  lemma {:induction false} CutShort(es: seq<WireEntry>, left: nat)
    requires forall i | 0 <= i < |es| :: |es[i].data| <= MAX_DATA
    ensures Received(es, left) == if |es| <= left then es else es[..left]
  {
    if es != [] {
      BlobSize(es[0]);
      if left > 0 {
        CutShort(es[1..], left - 1);
        assert es == [es[0]] + es[1..];
      }
    }
  }

  // ------------------------------------------------------------- the methods

  function Fitting(f: Field): seq<Field> { if Fits(f) then [f] else [] }

  /** One more field goes in, unless it is too large. */
  method Put(enc: Encoder, f: Field, ghost fs: seq<Field>, ghost more: seq<Field>)
    requires enc.Valid() && AllFit(fs) && f.tag < U16
    requires enc.Contents() == EncodeFields(fs) && more == fs + Fitting(f)
    modifies enc, enc.buffer
    ensures enc.Valid() && (enc.buffer == old(enc.buffer) || fresh(enc.buffer))
    ensures AllFit(more) && enc.Contents() == EncodeFields(more)
  {
    if Fits(f) {
      OneEncoded(fs, f);
    }
    assert fs + [] == fs;
    var ok := enc.EncodeRaw(f.kind, f.tag, f.value);
  }

  lemma OneEncoded(fs: seq<Field>, f: Field)
    requires AllFit(fs) && Fits(f)
    ensures AllFit(fs + [f]) && EncodeFields(fs + [f]) == EncodeFields(fs) + EncodeField(f)
  {
    EncodeFieldsOneMore(f, []);
    EncodeFieldsSplit(fs, [f]);
    assert [f] + [] == [f];
  }

  method SerializeEntry(e: WireEntry) returns (blob: seq<Byte>)
    ensures blob == Blob(e)
  {
    var enc := new Encoder(128);
    ghost var head := EntryHead(e);
    Put(enc, Uint32Field(FIELD_ENTRY_INDEX, e.index), [], head[..1]);
    Put(enc, Uint32Field(FIELD_ENTRY_TERM, e.term), head[..1], head[..2]);
    Put(enc, Field(UINT8, FIELD_ENTRY_TYPE, [e.kind]), head[..2], head);
    if |e.data| > 0 {
      Put(enc, Field(BYTES, FIELD_ENTRY_DATA, e.data), head, EntryFields(e));
    } else {
      assert EntryFields(e) == head;
    }
    blob := enc.Detach();
  }

  method SerializeHead(enc: Encoder, m: AppendEntries)
    requires enc.Valid() && enc.Contents() == [] && IsString(m.leaderId)
    modifies enc, enc.buffer
    ensures enc.Valid() && (enc.buffer == old(enc.buffer) || fresh(enc.buffer))
    ensures enc.Contents() == EncodeFields(HeadFields(m))
  {
    ghost var head := HeadFields(m);
    Put(enc, Uint32Field(FIELD_TERM, m.term), [], head[..1]);
    Put(enc, Field(STRING, FIELD_LEADER_ID, m.leaderId + [0]), head[..1], head[..2]);
    Put(enc, Uint32Field(FIELD_PREV_LOG_INDEX, m.prevIndex), head[..2], head[..3]);
    Put(enc, Uint32Field(FIELD_PREV_LOG_TERM, m.prevTerm), head[..3], head[..4]);
    Put(enc, Uint32Field(FIELD_LEADER_COMMIT, m.commit), head[..4], head);
  }

  method Serialize(m: AppendEntries) returns (bytes: seq<Byte>)
    requires IsString(m.leaderId)
    ensures bytes == Serialized(m)
  {
    var enc := new Encoder(512);
    SerializeHead(enc, m);
    ghost var fs := HeadFields(m);
    assert fs + [] == fs;
    for i := 0 to |m.entries|
      invariant enc.Valid() && fresh(enc) && fresh(enc.buffer)
      invariant fs == HeadFields(m) + EntriesFields(m.entries[..i])
      invariant AllFit(fs) && enc.Contents() == EncodeFields(fs)
    {
      var blob := SerializeEntry(m.entries[i]);
      ghost var more := HeadFields(m) + EntriesFields(m.entries[..i + 1]);
      EntriesFieldsOneMore(m.entries[..i], m.entries[i]);
      assert m.entries[..i + 1] == m.entries[..i] + [m.entries[i]];
      Put(enc, Field(BYTES, FIELD_ENTRIES, blob), fs, more);
      fs := more;
    }
    assert m.entries[..|m.entries|] == m.entries;
    bytes := enc.Detach();
  }

  lemma {:induction false} EntriesFieldsOneMore(es: seq<WireEntry>, e: WireEntry)
    ensures EntriesFields(es + [e]) == EntriesFields(es) + Fitting(Field(BYTES, FIELD_ENTRIES, Blob(e)))
  {
    if es == [] {
      assert es + [e] == [e];
    } else {
      EntriesFieldsOneMore(es[1..], e);
      assert (es + [e])[1..] == es[1..] + [e];
    }
  }

  method StoreEntryField(e: WireEntry, f: Field) returns (r: WireEntry)
    ensures r == EntryStep(e, f)
  {
    r := e;
    if f.tag == FIELD_ENTRY_INDEX {
      r := r.(index := GetUint32(f));
    } else if f.tag == FIELD_ENTRY_TERM {
      r := r.(term := GetUint32(f));
    } else if f.tag == FIELD_ENTRY_TYPE {
      r := r.(kind := GetUint8(f));
    } else if f.tag == FIELD_ENTRY_DATA && f.kind == BYTES && |f.value| > 0 {
      r := r.(data := f.value);
    }
  }

  method DecodeEntry(blob: seq<Byte>) returns (e: WireEntry)
    ensures e == DecodedEntry(blob)
  {
    e := BLANK_ENTRY;
    if blob == [] { return; }
    var dec := new Decoder(blob, 0, 0);
    while true
      invariant dec.Valid() && fresh(dec)
      invariant EntryFold(e, dec.Rest().fields) == DecodedEntry(blob)
      decreases |dec.buffer| - dec.offset
    {
      var o := dec.Next();
      match o
      case Got(f) => e := StoreEntryField(e, f);
      case _ => return;
    }
  }

  function CountEntries(fs: seq<Field>): nat {
    if fs == [] then 0 else (if fs[0].tag == FIELD_ENTRIES then 1 else 0) + CountEntries(fs[1..])
  }

  /** The first pass: how many entry fields there are. */
  method CountPass(dec: Decoder) returns (count: nat)
    requires dec.Valid()
    modifies dec
    ensures dec.Valid() && count == CountEntries(old(dec.Rest()).fields)
  {
    count := 0;
    while true
      invariant dec.Valid()
      invariant count + CountEntries(dec.Rest().fields) == CountEntries(old(dec.Rest()).fields)
      decreases |dec.buffer| - dec.offset
    {
      var o := dec.Next();
      match o
      case Got(f) => if f.tag == FIELD_ENTRIES { count := count + 1; }
      case _ => return;
    }
  }

  method StoreHeadField(p: Partial, f: Field) returns (r: Partial)
    requires f.tag != FIELD_ENTRIES
    ensures r == MessageStep(p, f)
  {
    var m, seen := p.m, p.seen;
    if f.tag == FIELD_TERM {
      m, seen := m.(term := GetUint32(f)), seen + {FIELD_TERM};
    } else if f.tag == FIELD_LEADER_ID {
      if f.kind == STRING && |f.value| > 0 {
        m := m.(leaderId := CString(f.value, LEADER_ID_SIZE - 1));
      }
      seen := seen + {FIELD_LEADER_ID};
    } else if f.tag == FIELD_PREV_LOG_INDEX {
      m, seen := m.(prevIndex := GetUint32(f)), seen + {FIELD_PREV_LOG_INDEX};
    } else if f.tag == FIELD_PREV_LOG_TERM {
      m, seen := m.(prevTerm := GetUint32(f)), seen + {FIELD_PREV_LOG_TERM};
    } else if f.tag == FIELD_LEADER_COMMIT {
      m, seen := m.(commit := GetUint32(f)), seen + {FIELD_LEADER_COMMIT};
    }
    r := Partial(m, seen);
  }

  lemma HeadFieldKeepsEntries(p: Partial, f: Field, es: seq<WireEntry>)
    requires f.tag != FIELD_ENTRIES
    ensures MessageStep(Extend(p, es), f) == Extend(MessageStep(p, f), es)
  {
  }

  method StoreField(p: Partial, slots: array<WireEntry>, next: nat, f: Field) returns (q: Partial, n: nat)
    requires p.m.entries == [] && next <= slots.Length
    requires f.tag == FIELD_ENTRIES ==> next < slots.Length
    modifies slots
    ensures q.m.entries == [] && n == next + (if f.tag == FIELD_ENTRIES then 1 else 0)
    ensures Extend(q, slots[..n]) == MessageStep(Extend(p, old(slots[..next])), f)
  {
    q, n := p, next;
    if f.tag == FIELD_ENTRIES {
      EntryAdds(p, slots[..next], f);
      slots[next] := DecodeEntry(f.value);
      n := next + 1;
    } else {
      HeadFieldKeepsEntries(p, f, slots[..next]);
      q := StoreHeadField(p, f);
    }
  }

  /** The second pass fills the slots counted by the first. */
  method FillPass(dec: Decoder, slots: array<WireEntry>) returns (p: Partial)
    requires dec.Valid() && slots.Length == CountEntries(dec.Rest().fields)
    modifies dec, slots
    ensures Extend(p, slots[..]) == MessageFold(BLANK, old(dec.Rest()).fields)
  {
    var next := 0;
    p := BLANK;
    assert Extend(p, slots[..next]) == BLANK;
    while true
      invariant dec.Valid() && p.m.entries == []
      invariant next + CountEntries(dec.Rest().fields) == slots.Length
      invariant MessageFold(Extend(p, slots[..next]), dec.Rest().fields) == MessageFold(BLANK, old(dec.Rest()).fields)
      decreases |dec.buffer| - dec.offset
    {
      var o := dec.Next();
      match o
      case Got(f) =>
        if f.tag != FIELD_ENTRIES || next < slots.Length {
          p, next := StoreField(p, slots, next, f);
        }
      case _ =>
        assert slots[..next] == slots[..];
        return;
    }
  }

  /** Two passes over the buffer: count the entries, then fill exactly that many slots. */
  method Deserialize(buffer: seq<Byte>) returns (r: Reply)
    ensures r == Deserialized(buffer)
  {
    if buffer == [] { return InvalidArg; }
    var ok := Validate(buffer);
    if !ok { return InvalidFormat; }
    var dec := new Decoder(buffer, 0, 0);
    var count := CountPass(dec);
    var slots := new WireEntry[count](_ => BLANK_ENTRY);
    dec.Reset();
    var p := FillPass(dec, slots);
    if REQUIRED <= p.seen {
      return Ok(p.m.(entries := p.m.entries + slots[..]));
    }
    return InvalidFormat;
  }
}
