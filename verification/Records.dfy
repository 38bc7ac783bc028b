/** Walking a file's top-level records by their length prefixes. */
module Records {
  import opened Spans

  type Byte = b: int | 0 <= b < 256 witness 0

  const MAGIC: seq<Byte> := [0x89, 0x4D, 0x43, 0x41, 0x50, 0x30, 0x0D, 0x0A]

  /** Opcode and body of a record. */
  datatype Raw = Raw(op: Byte, body: seq<Byte>)

  /** A record and the offsets where it starts and where the next one would. */
  datatype Found = Found(offset: nat, record: Raw, end: nat)

  // ---------------------------------------------------------------- lengths

  /** The value of little-endian bytes. */
  function FromBytes(bytes: seq<Byte>): nat {
    if |bytes| == 0 then 0 else bytes[0] + 256 * FromBytes(bytes[1..])
  }

  function Power256(n: nat): nat {
    if n == 0 then 1 else 256 * Power256(n - 1)
  }

  function ToBytes(value: nat, count: nat): (bytes: seq<Byte>)
    ensures |bytes| == count
  {
    if count == 0 then [] else [value % 256] + ToBytes(value / 256, count - 1)
  }

  lemma {:induction false} BytesReadBack(value: nat, count: nat)
    requires value < Power256(count)
    ensures FromBytes(ToBytes(value, count)) == value
  {
    if count > 0 {
      BytesReadBack(value / 256, count - 1);
      assert ToBytes(value, count)[1..] == ToBytes(value / 256, count - 1);
    }
  }

  lemma EightBytes()
    ensures Power256(8) == U64_MAX + 1
  {
    assert Power256(2) == 0x1_0000;
    assert Power256(4) == 0x1_0000_0000;
    assert Power256(6) == 0x1_0000_0000_0000;
  }

  // ---------------------------------------------------------------- one record

  const HEADER := 9

  /** The record at `offset`; none when it does not fit in the buffer. */
  function RecordAt(buf: seq<Byte>, offset: nat): (r: Option<Found>)
    ensures r.Some? ==> r.value.offset == offset && offset + HEADER <= r.value.end <= |buf|
  {
    if offset + HEADER > |buf| then None
    else
      var length := FromBytes(buf[offset + 1..offset + HEADER]);
      var end := offset + HEADER + length;
      if end > |buf| then None
      else Some(Found(offset, Raw(buf[offset], buf[offset + HEADER..end]), end))
  }

  function Encode(record: Raw): (bytes: seq<Byte>)
    ensures |bytes| == HEADER + |record.body|
  {
    [record.op] + ToBytes(|record.body|, 8) + record.body
  }

  lemma Middle<T>(a: seq<T>, b: seq<T>, c: seq<T>, cut: nat)
    requires |a| + |b| <= cut <= |a| + |b| + |c|
    ensures (a + b + c)[..cut][|a|..|a| + |b|] == b
  {
  }

  /** Where the parts of a record lie. */
  lemma Parts(before: seq<Byte>, record: Raw, after: seq<Byte>, cut: nat)
    requires cut <= |before| + |Encode(record)| + |after| && |before| + HEADER <= cut
    ensures var buf, start, end := (before + Encode(record) + after)[..cut], |before|, |before| + |Encode(record)|;
            && buf[start] == record.op
            && buf[start + 1..start + HEADER] == ToBytes(|record.body|, 8)
            && (end <= cut ==> buf[start + HEADER..end] == record.body)
  {
    var op, length := [record.op], ToBytes(|record.body|, 8);
    var buf := before + Encode(record) + after;
    assert buf == before + op + (length + record.body + after);
    Middle(before, op, length + record.body + after, cut);
    assert buf[..cut][|before|..|before| + 1] == op;
    assert buf == (before + op) + length + (record.body + after);
    Middle(before + op, length, record.body + after, cut);
    if |before| + |Encode(record)| <= cut {
      assert buf == (before + op + length) + record.body + after;
      Middle(before + op + length, record.body, after, cut);
    }
  }

  /** Reading where a record was written gives it back, whatever surrounds it; and
      reading a part of it gives nothing. */
  lemma RecordReadBack(before: seq<Byte>, record: Raw, after: seq<Byte>, cut: nat)
    requires |record.body| <= U64_MAX
    requires cut <= |before| + |Encode(record)| + |after|
    ensures var buf := before + Encode(record) + after;
            var end := |before| + |Encode(record)|;
            RecordAt(buf[..cut], |before|) == if end <= cut then Some(Found(|before|, record, end)) else None
  {
    hide Encode, ToBytes, FromBytes;
    if |before| + HEADER <= cut {
      EightBytes();
      BytesReadBack(|record.body|, 8);
      Parts(before, record, after, cut);
    }
  }

  // ---------------------------------------------------------------- the walk

  /** The records from `offset` on, up to the first that does not fit. */
  function Walk(buf: seq<Byte>, offset: nat): seq<Found>
    requires offset <= |buf|
    decreases |buf| - offset
  {
    match RecordAt(buf, offset)
    case None => []
    case Some(found) => [found] + Walk(buf, found.end)
  }

  /** A file's records; none when it does not start with the magic bytes. */
  function WalkFile(buf: seq<Byte>): seq<Found> {
    if |MAGIC| <= |buf| && buf[..|MAGIC|] == MAGIC then Walk(buf, |MAGIC|) else []
  }

  /** The walk as it runs. */
  method ReadRecords(buf: seq<Byte>) returns (records: seq<Found>)
    ensures records == WalkFile(buf)
  {
    records := [];
    if |buf| < |MAGIC| || buf[..|MAGIC|] != MAGIC {
      return;
    }
    var offset := |MAGIC|;
    while true
      invariant |MAGIC| <= offset <= |buf|
      invariant records + Walk(buf, offset) == WalkFile(buf)
      decreases |buf| - offset
    {
      var found := RecordAt(buf, offset);
      if found == None {
        return;
      }
      records := records + [found.value];
      offset := found.value.end;
    }
  }

  function EncodeAll(records: seq<Raw>): seq<Byte> {
    if |records| == 0 then [] else Encode(records[0]) + EncodeAll(records[1..])
  }

  /** The records written from `offset` on that end by `limit`, up to the first that does not. */
  function Whole(records: seq<Raw>, offset: nat, limit: nat): seq<Found> {
    if |records| == 0 then []
    else
      var end := offset + |Encode(records[0])|;
      if end <= limit then [Found(offset, records[0], end)] + Whole(records[1..], end, limit) else []
  }

  lemma {:induction false} WalkReadsBack(before: seq<Byte>, records: seq<Raw>, cut: nat)
    requires forall r <- records :: |r.body| <= U64_MAX
    requires |before| <= cut <= |before + EncodeAll(records)|
    ensures Walk((before + EncodeAll(records))[..cut], |before|) == Whole(records, |before|, cut)
    decreases |records|
  {
    hide Encode, FromBytes;
    var buf := (before + EncodeAll(records))[..cut];
    if |records| == 0 {
      assert RecordAt(buf, |before|) == None;
    } else {
      var first := Encode(records[0]);
      var rest := EncodeAll(records[1..]);
      assert before + EncodeAll(records) == before + first + rest;
      assert records[0] in records;
      RecordReadBack(before, records[0], rest, cut);
      if |before + first| <= cut {
        assert before + first + rest == (before + first) + rest;
        WalkReadsBack(before + first, records[1..], cut);
      }
    }
  }

  /** However a file is cut short after its magic, every record that is wholly there
      is read, at the offset it was written at, and nothing else. */
  lemma CutFileKeepsRecords(records: seq<Raw>, cut: nat)
    requires forall r <- records :: |r.body| <= U64_MAX
    requires |MAGIC| <= cut <= |MAGIC + EncodeAll(records)|
    ensures WalkFile((MAGIC + EncodeAll(records))[..cut]) == Whole(records, |MAGIC|, cut)
  {
    var file := MAGIC + EncodeAll(records);
    assert file[..cut][..|MAGIC|] == MAGIC;
    WalkReadsBack(MAGIC, records, cut);
  }

  /** A file is read at all exactly when it starts as an MCAP file does. */
  lemma OnlyWithMagic(buf: seq<Byte>)
    ensures WalkFile(buf) != [] ==> [0x89, 0x4D, 0x43, 0x41, 0x50, 0x30, 0x0D, 0x0A] <= buf
    ensures MAGIC <= buf ==> WalkFile(buf) == Walk(buf, |MAGIC|)
  {
  }

  /** An uncut file is read back in full. */
  lemma {:induction false} WholeIsAll(records: seq<Raw>, offset: nat, limit: nat)
    requires offset + |EncodeAll(records)| <= limit
    ensures |Whole(records, offset, limit)| == |records|
    ensures forall i :: 0 <= i < |records| ==> Whole(records, offset, limit)[i].record == records[i]
    ensures forall i, j ::
            0 <= i < j < |records| ==> Whole(records, offset, limit)[i].end <= Whole(records, offset, limit)[j].offset
    ensures forall i :: 0 <= i < |records| ==>
              offset <= Whole(records, offset, limit)[i].offset < Whole(records, offset, limit)[i].end
  {
    hide Encode;
    if |records| > 0 {
      WholeIsAll(records[1..], offset + |Encode(records[0])|, limit);
    }
  }
}
