// The log file of raft_persistence.c beside the in-memory log of raft_core.c: records are appended, truncation
// loads, filters and rewrites, and a restart loads what the file holds.

module DurableLog {
  import opened Basics
  import opened RaftNode

  /** One record of the file, as it is read back; `kind` is the raw type byte. */
  datatype Record = Record(index: nat, term: nat, kind: Byte, data: seq<Byte>)

  // ------------------------------------------------------------- the format

  /** A 32-bit number in the machine's byte order, low byte first. */
  function Word(x: nat): (b: seq<Byte>)
    requires x < U32
    ensures |b| == 4
  {
    Little(x, 4)
  }

  function UnWord(b: seq<Byte>): (x: nat)
    requires |b| == 4
    ensures x < U32
  {
    PowersOf();
    FromLittle(b)
  }

  lemma WordRoundTrip(x: nat)
    requires x < U32
    ensures UnWord(Word(x)) == x
  {
    PowersOf();
    FromLittleOfLittle(x, 4);
  }

  const LOG_FILE_MAGIC: nat := 0x52414654
  const LOG_FILE_VERSION: nat := 1

  function Header(): (h: seq<Byte>)
    ensures |h| == 8
  {
    Word(LOG_FILE_MAGIC) + Word(LOG_FILE_VERSION)
  }

  /** Index, term, type, data length, data.  The length goes through a 32-bit variable. */
  function Encode(r: Record): (b: seq<Byte>)
    requires r.index < U32 && r.term < U32
  {
    var len := |r.data| % U32;
    Word(r.index) + Word(r.term) + [r.kind] + Word(len) + r.data[..len]
  }

  predicate Storable(rs: seq<Record>) {
    forall i | 0 <= i < |rs| :: rs[i].index < U32 && rs[i].term < U32
  }

  function EncodeAll(rs: seq<Record>): seq<Byte>
    requires Storable(rs)
  {
    if rs == [] then [] else EncodeAll(rs[..|rs| - 1]) + Encode(rs[|rs| - 1])
  }

  /** The record at the front of `b`, and how long it is. */
  function First(b: seq<Byte>): Option<(Record, nat)> {
    if |b| < 13 then None
    else
      var len := UnWord(b[9..13]);
      if 13 + len > |b| then None
      else Some((Record(UnWord(b[..4]), UnWord(b[4..8]), b[8], b[13..13 + len]), 13 + len))
  }

  /** All records of the body of a file, or nothing if it does not end on a record boundary. */
  function Parse(b: seq<Byte>): Option<seq<Record>>
    decreases |b|
  {
    if b == [] then Some([])
    else match First(b)
      case None => None
      case Some((r, n)) =>
        match Parse(b[n..])
        case None => None
        case Some(rs) => Some([r] + rs)
  }

  // ------------------------------------------------------------ round trips

  function Clipped(r: Record): Record { r.(data := r.data[..|r.data| % U32]) }

  lemma FirstOfEncoded(r: Record, rest: seq<Byte>)
    requires r.index < U32 && r.term < U32
    ensures |Encode(r)| == 13 + |r.data| % U32
    ensures First(Encode(r) + rest) == Some((Clipped(r), |Encode(r)|))
    ensures (Encode(r) + rest)[|Encode(r)|..] == rest
  {
    var b := Encode(r) + rest;
    var len := |r.data| % U32;
    WordRoundTrip(r.index);
    WordRoundTrip(r.term);
    WordRoundTrip(len);
    RecordPieces(Word(r.index), Word(r.term), r.kind, Word(len), r.data[..len], rest);
  }

  /** The file starts with the magic number and the version, low bytes first. */
  lemma HeaderLayout()
    ensures Header() == [0x54, 0x46, 0x41, 0x52, 0x01, 0, 0, 0]
  {
    LittleBytes(LOG_FILE_MAGIC);
    LittleBytes(LOG_FILE_VERSION);
    assert Header()[..4] == Little(LOG_FILE_MAGIC, 4) && Header()[4..] == Little(LOG_FILE_VERSION, 4);
  }

  /** The bytes of a record: index, term, type and data length, numbers with the low byte first, and the data. */
  lemma RecordLayout(r: Record)
    requires r.index < U32 && r.term < U32
    ensures var b, len := Encode(r), |r.data| % 0x1_0000_0000;
      && |b| == 13 + len
      && b[0] as int + 0x100 * (b[1] as int) + 0x1_0000 * (b[2] as int) + 0x100_0000 * (b[3] as int) == r.index
      && b[4] as int + 0x100 * (b[5] as int) + 0x1_0000 * (b[6] as int) + 0x100_0000 * (b[7] as int) == r.term
      && b[8] == r.kind
      && b[9] as int + 0x100 * (b[10] as int) + 0x1_0000 * (b[11] as int) + 0x100_0000 * (b[12] as int) == len
      && b[13..] == r.data[..len]
  {
    var len := |r.data| % U32;
    LittleBytes(r.index);
    LittleBytes(r.term);
    LittleBytes(len);
    RecordPieces(Word(r.index), Word(r.term), r.kind, Word(len), r.data[..len], []);
    assert Encode(r) + [] == Encode(r);
  }

  lemma RecordPieces(index: seq<Byte>, term: seq<Byte>, kind: Byte, len: seq<Byte>, data: seq<Byte>, rest: seq<Byte>)
    requires |index| == |term| == |len| == 4
    ensures var b := index + term + [kind] + len + data + rest;
      b[..4] == index && b[4..8] == term && b[8] == kind && b[9..13] == len
      && b[13..13 + |data|] == data && b[13 + |data|..] == rest
  {
  }

  lemma FirstExtended(a: seq<Byte>, more: seq<Byte>)
    requires First(a).Some?
    ensures First(a + more) == First(a) && First(a).value.1 <= |a|
    ensures (a + more)[First(a).value.1..] == a[First(a).value.1..] + more
  {
    var b := a + more;
    var n := First(a).value.1;
    assert b[..4] == a[..4] && b[4..8] == a[4..8] && b[9..13] == a[9..13] && b[13..n] == a[13..n];
  }

  lemma {:induction false} ParseAppended(a: seq<Byte>, rs: seq<Record>, r: Record)
    requires Parse(a) == Some(rs) && r.index < U32 && r.term < U32
    ensures Parse(a + Encode(r)) == Some(rs + [Clipped(r)])
    decreases |a|
  {
    if a == [] {
      assert a + Encode(r) == Encode(r) + [];
      FirstOfEncoded(r, []);
      assert rs == [] && [Clipped(r)] + [] == rs + [Clipped(r)];
    } else {
      var (f, n) := First(a).value;
      FirstExtended(a, Encode(r));
      ParseAppended(a[n..], rs[1..], r);
      assert [f] + (rs[1..] + [Clipped(r)]) == rs + [Clipped(r)];
    }
  }

  function ClipAll(rs: seq<Record>): seq<Record> { seq(|rs|, (i: nat) requires i < |rs| => Clipped(rs[i])) }

  lemma {:induction false} ParseOfEncoded(rs: seq<Record>)
    requires Storable(rs)
    ensures Parse(EncodeAll(rs)) == Some(ClipAll(rs))
    decreases |rs|
  {
    if rs == [] {
      assert ClipAll(rs) == [];
    } else {
      var init, last := rs[..|rs| - 1], rs[|rs| - 1];
      ParseOfEncoded(init);
      ParseAppended(EncodeAll(init), ClipAll(init), last);
      assert ClipAll(rs) == ClipAll(init) + [Clipped(last)];
    }
  }

  /** Loading what was written gives it back exactly when every data length fits 32 bits. */
  lemma RoundTripIff(rs: seq<Record>)
    requires Storable(rs)
    ensures Parse(EncodeAll(rs)) == Some(rs) <==> forall i | 0 <= i < |rs| :: |rs[i].data| < U32
  {
    ParseOfEncoded(rs);
    ClipAllIff(rs);
  }

  lemma ClippedIff(r: Record)
    ensures Clipped(r) == r <==> |r.data| < U32
  {
    if |r.data| < U32 {
      assert r.data[..|r.data|] == r.data;
    } else {
      assert |Clipped(r).data| < U32;
    }
  }

  lemma ClipAllIff(rs: seq<Record>)
    ensures ClipAll(rs) == rs <==> forall i | 0 <= i < |rs| :: |rs[i].data| < U32
  {
    forall i | 0 <= i < |rs| ensures ClipAll(rs)[i] == rs[i] <==> |rs[i].data| < U32 {
      ClippedIff(rs[i]);
    }
  }

  // --------------------------------------------------------------- the file

  /** The records numbered below `from`, in order. */
  function Below(rs: seq<Record>, from: nat): seq<Record> {
    if rs == [] then []
    else
      var r := rs[|rs| - 1];
      Below(rs[..|rs| - 1], from) + (if r.index < from then [r] else [])
  }

  lemma {:induction false} BelowOfStorable(rs: seq<Record>, from: nat)
    requires Storable(rs)
    ensures Storable(Below(rs, from))
    decreases |rs|
  {
    if rs != [] {
      BelowOfStorable(rs[..|rs| - 1], from);
    }
  }

  lemma {:induction false} ParsedIsStorable(b: seq<Byte>)
    requires Parse(b).Some?
    ensures Storable(Parse(b).value)
    ensures forall i | 0 <= i < |Parse(b).value| :: |Parse(b).value[i].data| < U32
    decreases |b|
  {
    if b != [] {
      ParsedIsStorable(b[First(b).value.1..]);
    }
  }

  /** What truncation leaves in the body of the file; a body that does not parse is left alone. */
  function TruncatedBody(body: seq<Byte>, from: nat): seq<Byte> {
    match Parse(body)
    case None => body
    case Some(rs) =>
      ParsedIsStorable(body);
      BelowOfStorable(rs, from);
      EncodeAll(Below(rs, from))
  }

  class LogFile {
    var bytes: seq<Byte>

    ghost predicate Valid()
      reads this
    {
      |bytes| >= 8 && bytes[..8] == Header()
    }

    ghost function Body(): seq<Byte>
      reads this
      requires Valid()
    {
      bytes[8..]
    }

    /** A new file gets the header. */
    constructor ()
      ensures Valid() && Body() == []
    {
      bytes := Header();
    }

    method Append(r: Record)
      requires Valid() && r.index < U32 && r.term < U32
      modifies this
      ensures Valid() && Body() == old(Body()) + Encode(r)
    {
      bytes := bytes + Encode(r);
    }

    /** The first pass counts records, skipping data with a seek that may go past the end of the file. */
    method CountRecords() returns (result: Option<nat>)
      requires Valid()
      ensures result == match Parse(Body()) case None => None case Some(records) => Some(|records|)
    {
      ghost var body := Body();
      var count, pos := 0, 8;
      while pos < |bytes|
        invariant 8 <= pos
        invariant pos <= |bytes| ==> CountFrom(body, count, body[pos - 8..])
        invariant pos > |bytes| ==> Parse(body) == None
      {
        ghost var tail := body[pos - 8..];
        assert tail == bytes[pos..];
        if |bytes| - pos < 13 {
          ParseNone(body, count, tail);
          return None;
        }
        var len := UnWord(bytes[pos + 9..pos + 13]);
        assert tail[9..13] == bytes[pos + 9..pos + 13];
        if 13 + len > |tail| {
          ParseNone(body, count, tail);
        } else {
          CountNext(body, count, tail);
          assert tail[13 + len..] == body[pos + 13 + len - 8..];
        }
        pos, count := pos + 13 + len, count + 1;
      }
      if pos == |bytes| {
        assert body[pos - 8..] == [];
        ParseCounted(body, count);
      }
      // When the data of the last record is cut short, it is the second pass that fails.
      result := if pos > |bytes| then None else Some(count);
    }

    method Load() returns (result: Option<seq<Record>>)
      requires Valid()
      ensures result == Parse(Body())
    {
      var counted := CountRecords();
      if counted == None { return None; }
      var records := LoadRecords(bytes, counted.value, Parse(Body()).value);
      result := Some(records);
    }

    /** The second pass, over as many records as the first has counted. */
    static method LoadRecords(b: seq<Byte>, count: nat, ghost whole: seq<Record>) returns (records: seq<Record>)
      requires |b| >= 8 && Parse(b[8..]) == Some(whole) && |whole| == count
      ensures records == whole
    {
      records := [];
      var pos := 8;
      for i := 0 to count
        invariant 0 <= pos <= |b|
        invariant records == whole[..i] && Parse(b[pos..]) == Some(whole[i..])
      {
        var r, n := LoadOne(b, pos, whole[i..]);
        records, pos := records + [r], pos + n;
      }
      assert whole[..count] == whole;
    }

    static method LoadOne(b: seq<Byte>, pos: nat, ghost rest: seq<Record>) returns (r: Record, n: nat)
      requires pos <= |b| && Parse(b[pos..]) == Some(rest) && rest != []
      ensures pos + n <= |b| && r == rest[0] && Parse(b[pos + n..]) == Some(rest[1..])
    {
      r, n := ReadRecord(b[pos..]);
      EndOfEnd(b, pos, n);
    }

    static method ReadRecord(rest: seq<Byte>) returns (r: Record, n: nat)
      requires First(rest).Some?
      ensures First(rest) == Some((r, n))
    {
      var index, term := UnWord(rest[..4]), UnWord(rest[4..8]);
      var kind, len := rest[8], UnWord(rest[9..13]);
      r, n := Record(index, term, kind, rest[13..13 + len]), 13 + len;
    }

    /** Load, start over with the header, write back what stays. */
    method Truncate(from: nat) returns (ok: bool)
      requires Valid()
      modifies this
      ensures Valid()
      ensures ok <==> old(Parse(Body())).Some?
      ensures Body() == TruncatedBody(old(Body()), from)
    {
      var loaded := Load();
      if loaded == None { return false; }
      ParsedIsStorable(Body());
      BelowOfStorable(loaded.value, from);
      Rewrite(loaded.value, from);
      ok := true;
    }

    method Rewrite(entries: seq<Record>, from: nat)
      requires Storable(entries)
      modifies this
      ensures Valid() && Storable(Below(entries, from)) && Body() == EncodeAll(Below(entries, from))
    {
      bytes := Header();
      ghost var below: seq<Record> := [];
      for i := 0 to |entries|
        invariant Valid() && below == Below(entries[..i], from)
        invariant Storable(below) && Body() == EncodeAll(below)
      {
        BelowNext(entries, i, from);
        if entries[i].index < from {
          EncodeAllOneMore(below, entries[i]);
          Append(entries[i]);
          below := below + [entries[i]];
        }
      }
      assert entries[..|entries|] == entries;
    }
  }

  lemma EncodeAllOneMore(rs: seq<Record>, r: Record)
    requires Storable(rs) && r.index < U32 && r.term < U32
    ensures Storable(rs + [r]) && EncodeAll(rs + [r]) == EncodeAll(rs) + Encode(r)
  {
    assert (rs + [r])[..|rs|] == rs;
  }

  lemma BelowNext(entries: seq<Record>, i: nat, from: nat)
    requires i < |entries|
    ensures var below := Below(entries[..i], from);
            Below(entries[..i + 1], from) == if entries[i].index < from then below + [entries[i]] else below
  {
    assert entries[..i + 1][..i] == entries[..i];
    var below := Below(entries[..i], from);
    assert below + [] == below;
  }

  lemma EndOfEnd(b: seq<Byte>, m: nat, n: nat)
    requires m + n <= |b|
    ensures b[m..][n..] == b[m + n..]
  {
  }

  /** `tail` is what follows the first `count` records of `b`. */
  predicate CountFrom(b: seq<Byte>, count: nat, tail: seq<Byte>)
    decreases count
  {
    if count == 0 then b == tail
    else First(b).Some? && CountFrom(b[First(b).value.1..], count - 1, tail)
  }

  lemma {:induction false} CountNext(b: seq<Byte>, count: nat, tail: seq<Byte>)
    requires CountFrom(b, count, tail) && First(tail).Some?
    ensures CountFrom(b, count + 1, tail[First(tail).value.1..])
    decreases count
  {
    if count > 0 {
      CountNext(b[First(b).value.1..], count - 1, tail);
    }
  }

  lemma {:induction false} ParseNone(b: seq<Byte>, count: nat, tail: seq<Byte>)
    requires CountFrom(b, count, tail) && tail != [] && First(tail).None?
    ensures Parse(b) == None
    decreases count
  {
    if count > 0 {
      ParseNone(b[First(b).value.1..], count - 1, tail);
    }
  }

  lemma {:induction false} ParseCounted(b: seq<Byte>, count: nat)
    requires CountFrom(b, count, [])
    ensures Parse(b).Some? && |Parse(b).value| == count
    decreases count
  {
    if count > 0 {
      ParseCounted(b[First(b).value.1..], count - 1);
    }
  }

  // ------------------------------------------------- the file and the log

  function KindCode(k: EntryKind): Byte {
    match k case Command => 0 case Config => 1 case Noop => 2
  }

  function KindOf(code: Byte): EntryKind {
    if code == 0 then Command else if code == 2 then Noop else Config
  }

  /** The type byte on disk and on the wire: 0 for a command, 1 for a configuration, 2 for a no-op; any other byte reads
      as a configuration. */
  lemma KindCodes(k: EntryKind, code: Byte)
    ensures KindCode(k) == (if k == Command then 0 else if k == Config then 1 else 2)
    ensures KindOf(code) == k ==> (KindCode(k) == code || (k == Config && code > 2))
    ensures KindOf(KindCode(k)) == k
  {
  }

  function RecordOf(e: Entry): Record { Record(e.index, e.term, KindCode(e.kind), e.data) }

  function RecordsOf(log: seq<Entry>): seq<Record> { seq(|log|, (i: nat) requires i < |log| => RecordOf(log[i])) }

  /** What creation does with the loaded records: append them again, one by one. */
  function Reappended(rs: seq<Record>): seq<Entry> {
    if rs == [] then []
    else
      var r := rs[|rs| - 1];
      LogAppend(Reappended(rs[..|rs| - 1]), r.term, KindOf(r.kind), r.data)
  }

  lemma {:induction false} ReappendedRecords(log: seq<Entry>)
    requires Indexed(log)
    ensures Reappended(RecordsOf(log)) == log
    decreases |log|
  {
    if log != [] {
      var init, rs := log[..|log| - 1], RecordsOf(log);
      assert rs[..|rs| - 1] == RecordsOf(init);
      ReappendedRecords(init);
      assert init + [log[|log| - 1]] == log;
    }
  }

  /** In a log numbered from 1, keeping what is numbered below `from` is cutting at `from`. */
  lemma {:induction false} BelowIsPrefix(log: seq<Entry>, from: nat)
    requires Indexed(log)
    ensures Below(RecordsOf(log), from)
         == RecordsOf(if from == 0 then [] else if from > |log| then log else log[..from - 1])
    decreases |log|
  {
    if log != [] {
      var init, last := log[..|log| - 1], log[|log| - 1];
      RecordsOneMore(init, last);
      assert log == init + [last];
      BelowIsPrefix(init, from);
      BelowOneMore(RecordsOf(init), RecordOf(last), from);
      if 0 < from <= |log| {
        assert init[..from - 1] == log[..from - 1];
      }
    }
  }

  lemma RecordsOneMore(log: seq<Entry>, e: Entry)
    ensures RecordsOf(log + [e]) == RecordsOf(log) + [RecordOf(e)]
  {
  }

  lemma BelowOneMore(rs: seq<Record>, r: Record, from: nat)
    ensures Below(rs + [r], from) == if r.index < from then Below(rs, from) + [r] else Below(rs, from)
  {
    assert (rs + [r])[..|rs|] == rs;
    assert Below(rs, from) + [] == Below(rs, from);
  }

  /** The operations that change the log, with numbers that fit the file's 32-bit fields. */
  datatype LogOp = Add(term: nat, kind: EntryKind, data: seq<Byte>) | Cut(from: nat)

  predicate Fits(op: LogOp) { op.Add? ==> op.term < U32 && |op.data| < U32 }

  predicate FitsLog(log: seq<Entry>) {
    && |log| < U32
    && forall i | 0 <= i < |log| :: log[i].term < U32
  }

  function DoLog(log: seq<Entry>, op: LogOp): seq<Entry> {
    match op
    case Add(term, kind, data) => LogAppend(log, term, kind, data)
    case Cut(from) => LogTruncate(log, from)
  }

  /** The file is touched exactly when the log is. */
  function DoFile(body: seq<Byte>, log: seq<Entry>, op: LogOp): seq<Byte>
    requires FitsLog(log) && |log| + 1 < U32 && Fits(op)
  {
    match op
    case Add(term, kind, data) => body + Encode(RecordOf(Entry(|log| + 1, term, kind, data)))
    case Cut(from) => if from == 0 || from > |log| then body else TruncatedBody(body, from)
  }

  /** File and log say the same. */
  ghost predicate InStep(body: seq<Byte>, log: seq<Entry>) {
    && Indexed(log) && FitsLog(log)
    && Parse(body) == Some(RecordsOf(log))
  }

  lemma AddKeepsInStep(body: seq<Byte>, log: seq<Entry>, e: Entry)
    requires InStep(body, log) && e.index == |log| + 1 < U32 && e.term < U32 && |e.data| < U32
    ensures InStep(body + Encode(RecordOf(e)), log + [e])
  {
    ParseAppended(body, RecordsOf(log), RecordOf(e));
    ClippedIff(RecordOf(e));
    RecordsOneMore(log, e);
  }

  lemma CutKeepsInStep(body: seq<Byte>, log: seq<Entry>, from: nat)
    requires InStep(body, log) && 0 < from <= |log|
    ensures InStep(TruncatedBody(body, from), log[..from - 1])
  {
    var rs, kept := RecordsOf(log), RecordsOf(log[..from - 1]);
    ParsedIsStorable(body);
    BelowOfStorable(rs, from);
    BelowIsPrefix(log, from);
    forall i | 0 <= i < |kept| ensures |kept[i].data| < U32 {
      assert kept[i] == rs[i];
    }
    RoundTripIff(kept);
  }

  lemma OpKeepsInStep(body: seq<Byte>, log: seq<Entry>, op: LogOp)
    requires InStep(body, log) && |log| + 1 < U32 && Fits(op)
    ensures InStep(DoFile(body, log, op), DoLog(log, op))
  {
    match op
    case Add(term, kind, data) => AddKeepsInStep(body, log, Entry(|log| + 1, term, kind, data));
    case Cut(from) =>
      if 0 < from <= |log| {
        CutKeepsInStep(body, log, from);
      }
  }

  /** The log after a history of operations, and the body of its file. */
  function LogAfter(ops: seq<LogOp>): seq<Entry> {
    if ops == [] then [] else DoLog(LogAfter(ops[..|ops| - 1]), ops[|ops| - 1])
  }

  lemma {:induction false} LogAfterBounds(ops: seq<LogOp>)
    requires |ops| + 1 < U32 && forall i | 0 <= i < |ops| :: Fits(ops[i])
    ensures |LogAfter(ops)| <= |ops| && FitsLog(LogAfter(ops))
    decreases |ops|
  {
    if ops != [] {
      LogAfterBounds(ops[..|ops| - 1]);
    }
  }

  function FileAfter(ops: seq<LogOp>): seq<Byte>
    requires |ops| + 1 < U32 && forall i | 0 <= i < |ops| :: Fits(ops[i])
  {
    if ops == [] then []
    else
      var init := ops[..|ops| - 1];
      LogAfterBounds(init);
      DoFile(FileAfter(init), LogAfter(init), ops[|ops| - 1])
  }

  /** After any interleaving of appends and truncations a restart finds exactly the log that was in memory. */
  lemma {:induction false} RestartFindsTheLog(ops: seq<LogOp>)
    requires |ops| + 1 < U32 && forall i | 0 <= i < |ops| :: Fits(ops[i])
    ensures InStep(FileAfter(ops), LogAfter(ops))
    ensures Parse(FileAfter(ops)).Some? && Reappended(Parse(FileAfter(ops)).value) == LogAfter(ops)
    decreases |ops|
  {
    if ops != [] {
      var init := ops[..|ops| - 1];
      RestartFindsTheLog(init);
      LogAfterBounds(init);
      OpKeepsInStep(FileAfter(init), LogAfter(init), ops[|ops| - 1]);
    }
    ReappendedRecords(LogAfter(ops));
  }

  /** The log with its file, as log_append and log_truncate keep them. */
  class PersistentLog {
    var log: seq<Entry>
    const file: LogFile

    ghost predicate Valid()
      reads this, file
    {
      file.Valid() && InStep(file.Body(), log)
    }

    constructor ()
      ensures Valid() && log == [] && fresh(file)
    {
      log := [];
      file := new LogFile();
      assert RecordsOf([]) == [];
    }

    method Append(term: nat, kind: EntryKind, data: seq<Byte>)
      requires Valid() && |log| + 1 < U32 && Fits(Add(term, kind, data))
      modifies this, file
      ensures Valid() && log == LogAppend(old(log), term, kind, data)
      ensures file.Body() == DoFile(old(file.Body()), old(log), Add(term, kind, data))
    {
      var e := Entry(|log| + 1, term, kind, data);
      AddKeepsInStep(file.Body(), log, e);
      log := log + [e];
      file.Append(RecordOf(e));
    }

    method Truncate(from: nat)
      requires Valid() && |log| + 1 < U32
      modifies this, file
      ensures Valid() && log == LogTruncate(old(log), from)
      ensures file.Body() == DoFile(old(file.Body()), old(log), Cut(from))
    {
      if from == 0 || from > |log| { return; }
      OpKeepsInStep(file.Body(), log, Cut(from));
      log := log[..from - 1];
      var ok := file.Truncate(from);
    }

    /** What a new process finds on disk. */
    method Reload() returns (entries: seq<Entry>)
      requires Valid()
      ensures entries == log
    {
      var loaded := file.Load();
      ReappendedRecords(log);
      entries := [];
      var rs := loaded.value;
      for i := 0 to |rs|
        invariant entries == Reappended(rs[..i])
      {
        assert rs[..i + 1][..i] == rs[..i];
        entries := LogAppend(entries, rs[i].term, KindOf(rs[i].kind), rs[i].data);
      }
      assert rs[..|rs|] == rs;
    }
  }
}
