// The ring buffer behind a connection and the send path over it: what is on the wire followed by what is queued is
// one stream, and every send extends it by its own bytes.

module SendQueue {
  import opened Basics

  // ---------------------------------------------------------------- the ring

  /** The len bytes from position head on, going round the end of the buffer. */
  function Round(buf: seq<Byte>, head: nat, len: nat): (s: seq<Byte>)
    requires head < |buf| && len <= |buf|
    ensures |s| == len
  {
    if head + len <= |buf| then buf[head..head + len] else buf[head..] + buf[..head + len - |buf|]
  }

  /** The position behind the last byte. */
  function Behind(size: nat, head: nat, len: nat): nat { if head + len < size then head + len else head + len - size }

  lemma WrapOnce(x: nat, n: nat)
    requires 0 < n && x < 2 * n
    ensures x % n == if x < n then x else x - n
  {
  }

  lemma EndOfTwo(a: seq<Byte>, b: seq<Byte>, n: nat)
    requires n <= |a| + |b|
    ensures (a + b)[n..] == if n <= |a| then a[n..] + b else b[n - |a|..]
  {
  }

  lemma RoundDropped(buf: seq<Byte>, head: nat, len: nat, n: nat)
    requires head < |buf| && n <= len <= |buf|
    ensures var h := Behind(|buf|, head, n);
      h < |buf| && Round(buf, h, len - n) == Round(buf, head, len)[n..]
  {
    if head + len > |buf| {
      EndOfTwo(buf[head..], buf[..head + len - |buf|], n);
    } else {
      assert buf[head..head + len][n..] == buf[head + n..head + len];
    }
  }

  lemma RoundExtended(buf: seq<Byte>, head: nat, len: nat, data: seq<Byte>, after: seq<Byte>)
    requires head < |buf| && len + |data| <= |buf|
    requires var tail := Behind(|buf|, head, len);
      tail + |data| <= |buf| && after == buf[..tail] + data + buf[tail + |data|..]
    ensures |after| == |buf| && Round(after, head, len + |data|) == Round(buf, head, len) + data
  {
    var tail := Behind(|buf|, head, len);
    assert after[..tail] == buf[..tail] && after[tail..tail + |data|] == data;
    assert after[tail + |data|..] == buf[tail + |data|..];
    if head + len < |buf| {
      assert after[head..tail] == buf[head..tail];
      assert after[head..tail + |data|] == after[head..tail] + after[tail..tail + |data|];
    } else {
      assert after[head..] == after[tail + |data|..][head - tail - |data|..];
      assert buf[head..] == buf[tail + |data|..][head - tail - |data|..];
      assert after[..tail + |data|] == after[..tail] + after[tail..tail + |data|];
      assert buf[head..] + buf[..tail] == Round(buf, head, len);
      assert buf[head..] + (buf[..tail] + data) == (buf[head..] + buf[..tail]) + data;
    }
  }

  /** The end of the buffer is in the way: n bytes of the data fill it, the rest goes to the start. */
  lemma RoundExtendedTwice(buf: seq<Byte>, head: nat, len: nat, data: seq<Byte>, n: nat, after: seq<Byte>)
    requires head + len < |buf| && n == |buf| - (head + len) && n < |data| && len + |data| <= |buf|
    requires after == data[n..] + buf[|data| - n..head + len] + data[..n]
    ensures |after| == |buf| && Round(after, head, len + |data|) == Round(buf, head, len) + data
  {
    var k := |data| - n;
    assert after[..k] == data[n..];
    EndOfThree(data[n..], buf[k..head + len], data[..n], head);
    assert buf[k..head + len][head - k..] == buf[head..head + len];
    RejoinedWrite(buf[head..head + len], data, n);
  }

  lemma EndOfThree(a: seq<Byte>, b: seq<Byte>, c: seq<Byte>, at: nat)
    requires |a| <= at <= |a| + |b|
    ensures (a + b + c)[at..] == b[at - |a|..] + c
  {
  }

  lemma RejoinedWrite(a: seq<Byte>, data: seq<Byte>, n: nat)
    requires n <= |data|
    ensures (a + data[..n]) + data[n..] == a + data
  {
    assert data[..n] + data[n..] == data;
  }

  class Ring {
    var buf: array<Byte>
    var hwm: nat
    var head: nat
    var len: nat

    ghost predicate Valid()
      reads this
    {
      buf.Length > 0 && head < buf.Length && len <= buf.Length && hwm <= buf.Length
    }

    ghost function Contents(): (s: seq<Byte>)
      reads this, buf
      requires Valid()
      ensures |s| == len
    {
      Round(buf[..], head, len)
    }

    constructor (capacity: nat, hwm: nat)
      requires 0 < capacity && hwm <= capacity
      ensures Valid() && fresh(buf) && Contents() == [] && buf.Length == capacity && this.hwm == hwm
    {
      buf := new Byte[capacity](_ => 0);
      this.hwm, head, len := hwm, 0, 0;
    }

    method CopyIn(at: nat, data: seq<Byte>)
      requires at + |data| <= buf.Length
      modifies buf
      ensures buf[..] == old(buf[..at]) + data + old(buf[at + |data|..])
    {
      for k := 0 to |data|
        invariant buf[..] == old(buf[..at]) + data[..k] + old(buf[at + k..])
      {
        buf[at + k] := data[k];
      }
    }

    method Tail() returns (tail: nat)
      requires Valid() && len < buf.Length
      ensures tail == Behind(buf.Length, head, len)
    {
      WrapOnce(head + len, buf.Length);
      tail := (head + len) % buf.Length;
    }

    lemma EndKept(before: seq<Byte>, middle: seq<Byte>, part: seq<Byte>, at: nat, from: nat)
      requires from <= at && at + |part| == |before| && middle == before[..at] + part + before[|before|..]
      ensures middle[from..] == before[from..at] + part
    {
    }

    /** Fill the end of the buffer, then go on at its start. */
    method CopyAround(at: nat, data: seq<Byte>)
      requires at < buf.Length && buf.Length - at < |data| <= buf.Length
      modifies buf
      ensures var n := buf.Length - at;
        |data| - n <= at ==> buf[..] == data[n..] + old(buf[|data| - n..at]) + data[..n]
    {
      var n := buf.Length - at;
      ghost var before := buf[..];
      CopyIn(at, data[..n]);
      ghost var middle := buf[..];
      CopyIn(0, data[n..]);
      if |data| - n <= at {
        EndKept(before, middle, data[..n], at, |data| - n);
      }
    }

    /** The bytes go behind the contents, in two segments when the end of the buffer is in the way. */
    method Write(tail: nat, data: seq<Byte>)
      requires Valid() && len < buf.Length && tail == Behind(buf.Length, head, len) && |data| <= buf.Length - len
      modifies buf
      ensures Valid() && Round(buf[..], head, len + |data|) == old(Contents()) + data
    {
      var toEnd := buf.Length - tail;
      ghost var before := buf[..];
      if |data| <= toEnd {
        CopyIn(tail, data);
        RoundExtended(before, head, len, data, buf[..]);
      } else {
        CopyAround(tail, data);
        RoundExtendedTwice(before, head, len, data, toEnd, buf[..]);
      }
    }

    /** Append at the tail, if there is room. */
    method Push(data: seq<Byte>) returns (ok: bool)
      requires Valid()
      modifies this`len, buf
      ensures Valid()
      ensures ok <==> 0 < |data| <= buf.Length - old(len)
      ensures Contents() == if ok then old(Contents()) + data else old(Contents())
    {
      if |data| == 0 { return false; }
      if |data| > buf.Length - len { return false; }
      var tail := Tail();
      Write(tail, data);
      len := len + |data|;
      return true;
    }

    /** The longest contiguous part from the head. */
    method Peek() returns (start: nat, avail: nat)
      requires Valid()
      ensures start + avail <= buf.Length && avail <= len && (avail == 0 <==> len == 0)
      ensures buf[start..start + avail] == Contents()[..avail]
    {
      if len == 0 { return 0, 0; }
      var toEnd := buf.Length - head;
      start := head;
      avail := if len < toEnd then len else toEnd;
    }

    /** Drop up to n bytes from the head. */
    method Consume(n: nat)
      requires Valid()
      modifies this`head, this`len
      ensures Valid() && Contents() == old(Contents())[if n < old(len) then n else old(len)..]
    {
      if n == 0 { return; }
      DropFront(if n > len then len else n);
      if len == 0 { head := 0; }
    }

    method DropFront(m: nat)
      requires Valid() && m <= len
      modifies this`head, this`len
      ensures Valid() && Contents() == old(Contents())[m..]
    {
      RoundDropped(buf[..], head, len, m);
      Advance(m);
    }

    method Advance(m: nat)
      requires Valid() && m <= len
      modifies this`head, this`len
      ensures head == Behind(buf.Length, old(head), m) && head < buf.Length && len == old(len) - m
    {
      WrapOnce(head + m, buf.Length);
      head := (head + m) % buf.Length;
      len := len - m;
    }
  }
}
