/** Key-establishment records, RFC 8915 section 4: written, and iterated back. */
module KeyRecords {
  import opened Wrappers
  import opened Bytes

  const END_OF_MESSAGE: nat := 0
  const CRITICAL: nat := 0x8000
  const MOST_BODY: nat := 0xFFFF

  datatype Record = Record(critical: bool, recordType: nat, body: seq<byte>)

  /** What the iterator yields: a record, or where the stream broke off. */
  datatype Item = Got(record: Record) | Truncated(at: nat)

  /** What fits on the wire: fifteen bits of type and sixteen of length. */
  function Carried(r: Record): (c: Record)
    ensures c.recordType < CRITICAL && |c.body| <= MOST_BODY
  {
    Record(r.critical, r.recordType % CRITICAL, if |r.body| <= MOST_BODY then r.body else r.body[..MOST_BODY])
  }

  function TypeField(r: Record): nat {
    r.recordType + (if r.critical then CRITICAL else 0)
  }

  /** A record that fits, on the wire. */
  function Laid(r: Record): (s: seq<byte>)
    ensures |s| == 4 + |r.body|
  {
    Octets(TypeField(r), 2) + Octets(|r.body|, 2) + r.body
  }

  method WriteRecord(out: seq<byte>, r: Record) returns (more: seq<byte>)
    ensures more == out + Laid(Carried(r))
  {
    var typeField := r.recordType % CRITICAL;
    if r.critical {
      typeField := typeField + CRITICAL;
    }
    var len := if |r.body| < MOST_BODY then |r.body| else MOST_BODY;
    more := out + Octets(typeField, 2);
    more := more + Octets(len, 2);
    more := more + r.body[..len];
    assert r.body[..len] == Carried(r).body;
  }

  /** The record at the start of `rest`, if it is whole. */
  function Peeked(rest: seq<byte>): (r: Option<Record>)
    ensures r.Some? ==> 4 + |r.value.body| <= |rest|
  {
    if |rest| < 4 || |rest| < 4 + Value(rest[2..4]) then None
    else
      var typeField := Value(rest[..2]);
      Some(Record(typeField / CRITICAL % 2 == 1, typeField % CRITICAL, rest[4..4 + Value(rest[2..4])]))
  }

  /** The octets of a record: a critical bit and fifteen of type, sixteen of length, and so many of body. */
  lemma PeekedOctets(rest: seq<byte>)
    requires |rest| >= 4
    ensures var len := rest[2] as int * 256 + rest[3] as int;
            Peeked(rest)
            == if |rest| < 4 + len then None
               else Some(Record(rest[0] >= 128, rest[0] as int % 128 * 256 + rest[1] as int, rest[4..4 + len]))
  {
    TwoOctets(rest[..2]);
    TwoOctets(rest[2..4]);
  }

  /** What iterating `rest`, which starts at octet `at`, yields. */
  function Records(rest: seq<byte>, at: nat): (items: seq<Item>)
    decreases |rest|
  {
    if rest == [] then []
    else
      match Peeked(rest)
      case None => [Truncated(at)]
      case Some(r) =>
        var step := 4 + |r.body|;
        [Got(r)] + (if r.recordType == END_OF_MESSAGE then [] else Records(rest[step..], at + step))
  }

  lemma RecordsStep(rest: seq<byte>, at: nat, r: Record)
    requires Peeked(rest) == Some(r)
    ensures var step := 4 + |r.body|;
            Records(rest, at)
            == [Got(r)] + (if r.recordType == END_OF_MESSAGE then [] else Records(rest[step..], at + step))
  {
    hide Peeked;
  }

  lemma RecordsNone(at: nat)
    ensures Records([], at) == []
  {
  }

  lemma RecordsBreak(rest: seq<byte>, at: nat)
    requires rest != [] && Peeked(rest).None?
    ensures Records(rest, at) == [Truncated(at)]
  {
    hide Peeked;
  }

  /** The record at a cursor, read straight from the buffer. */
  lemma PeekedAt(buf: seq<byte>, at: nat)
    requires at <= |buf|
    ensures at + 4 > |buf| ==> Peeked(buf[at..]).None?
    ensures at + 4 <= |buf| ==>
              var typeField, end := Value(buf[at..at + 2]), at + 4 + Value(buf[at + 2..at + 4]);
              && (end > |buf| ==> Peeked(buf[at..]).None?)
              && (end <= |buf| ==>
                    Peeked(buf[at..])
                    == Some(Record(typeField / CRITICAL % 2 == 1, typeField % CRITICAL, buf[at + 4..end])))
  {
    if at + 4 <= |buf| {
      var rest := buf[at..];
      assert rest[..2] == buf[at..at + 2] && rest[2..4] == buf[at + 2..at + 4];
      if |rest| >= 4 + Value(rest[2..4]) {
        assert rest[4..4 + Value(rest[2..4])] == buf[at + 4..at + 4 + Value(rest[2..4])];
      }
    }
  }

  class RecordIter {
    const buf: seq<byte>
    var at: nat
    var done: bool

    /** What is still to be yielded. */
    function Rest(): seq<Item>
      requires at <= |buf|
      reads this
    {
      if done then [] else Records(buf[at..], at)
    }

    constructor (buf: seq<byte>)
      ensures at == 0 && Rest() == Records(buf, 0)
    {
      this.buf := buf;
      at := 0;
      done := false;
      new;
      assert buf[0..] == buf;
    }

    method Next() returns (item: Option<Item>)
      requires at <= |buf|
      modifies this
      ensures at <= |buf|
      ensures old(Rest()) == if item.None? then [] else [item.value] + Rest()
    {
      hide Peeked, Records;
      if done || at >= |buf| {
        RecordsNone(at);
        assert !done ==> buf[at..] == [];
        return None;
      }
      PeekedAt(buf, at);
      if at + 4 > |buf| {
        RecordsBreak(buf[at..], at);
        done := true;
        return Some(Truncated(at));
      }
      var typeField := Value(buf[at..at + 2]);
      var bodyLen := Value(buf[at + 2..at + 4]);
      var bodyStart := at + 4;
      if bodyStart + bodyLen > |buf| {
        RecordsBreak(buf[at..], at);
        done := true;
        return Some(Truncated(at));
      }
      var body := buf[bodyStart..bodyStart + bodyLen];
      var recordType := typeField % CRITICAL;
      RecordsStep(buf[at..], at, Record(typeField / CRITICAL % 2 == 1, recordType, body));
      assert buf[at..][4 + bodyLen..] == buf[bodyStart + bodyLen..];
      at := bodyStart + bodyLen;
      if recordType == END_OF_MESSAGE {
        done := true;
      }
      return Some(Got(Record(typeField / CRITICAL % 2 == 1, recordType, body)));
    }
  }

  // ----- written and read back -----

  function Written(rs: seq<Record>): seq<byte> {
    if rs == [] then [] else Laid(Carried(rs[0])) + Written(rs[1..])
  }

  /** Records as they are carried, up to the first end of message. */
  function Message(rs: seq<Record>): seq<Item> {
    if rs == [] then []
    else
      var r := Carried(rs[0]);
      [Got(r)] + (if r.recordType == END_OF_MESSAGE then [] else Message(rs[1..]))
  }

  lemma PeekLaid(r: Record, more: seq<byte>)
    requires r.recordType < CRITICAL && |r.body| <= MOST_BODY
    ensures Peeked(Laid(r) + more) == Some(r) && (Laid(r) + more)[4 + |r.body|..] == more
  {
    var s := Laid(r) + more;
    Spans();
    OctetsFit(TypeField(r), 2);
    OctetsFit(|r.body|, 2);
    assert s[..2] == Octets(TypeField(r), 2);
    assert s[2..4] == Octets(|r.body|, 2);
    assert s[4..4 + |r.body|] == r.body;
  }

  /** Whatever is written reads back as it was carried, up to the end of the message, and no further. */
  lemma {:induction false} RecordsOfWritten(rs: seq<Record>, at: nat)
    ensures Records(Written(rs), at) == Message(rs)
    decreases rs
  {
    hide Laid, Peeked;
    if rs != [] {
      var r := Carried(rs[0]);
      PeekLaid(r, Written(rs[1..]));
      RecordsStep(Laid(r) + Written(rs[1..]), at, r);
      RecordsOfWritten(rs[1..], at + 4 + |r.body|);
    }
  }

  /** A record comes back as it was handed over exactly when it fits. */
  lemma CarriedExactly(r: Record)
    ensures Message([r]) == [Got(r)] <==> r.recordType < CRITICAL && |r.body| <= MOST_BODY
  {
    assert Message([r]) == [Got(Carried(r))] by {
      assert [r][1..] == [];
    }
  }

  predicate Ends(item: Item) {
    item.Truncated? || item.record.recordType == END_OF_MESSAGE
  }

  /** The octets of the records read. */
  function Relaid(items: seq<Item>): seq<byte> {
    if items == [] then []
    else (if items[0].Got? then Laid(items[0].record) else []) + Relaid(items[1..])
  }

  lemma RelaidStep(item: Item, more: seq<Item>)
    ensures Relaid([item] + more) == (if item.Got? then Laid(item.record) else []) + Relaid(more)
  {
    assert ([item] + more)[1..] == more;
  }

  lemma LaidPeek(rest: seq<byte>, r: Record)
    requires Peeked(rest) == Some(r)
    ensures Laid(r) == rest[..4 + |r.body|]
  {
    OctetsOfValue(rest[..2]);
    OctetsOfValue(rest[2..4]);
    Spans();
    assert TypeField(r) == Value(rest[..2]);
    assert rest[..4 + |r.body|] == rest[..2] + rest[2..4] + rest[4..4 + |r.body|];
  }

  lemma Joins(a: seq<byte>, b: seq<byte>, s: seq<byte>, k: nat)
    requires k <= |s| && a == s[..k] && b <= s[k..]
    ensures a + b <= s && (a + b == s <==> b == s[k..])
  {
    assert s == s[..k] + s[k..];
  }

  /** What items read from `rest` leave of it. */
  ghost predicate ReadFrom(items: seq<Item>, rest: seq<byte>) {
    && Relaid(items) <= rest
    && (Relaid(items) != rest ==> items != [] && Ends(items[|items| - 1]))
  }

  lemma ReadOn(r: Record, more: seq<Item>, rest: seq<byte>)
    requires Peeked(rest) == Some(r)
    requires if r.recordType == END_OF_MESSAGE then more == [] else ReadFrom(more, rest[4 + |r.body|..])
    ensures ReadFrom([Got(r)] + more, rest)
  {
    hide Laid, Peeked;
    LaidPeek(rest, r);
    RelaidStep(Got(r), more);
    Joins(Laid(r), Relaid(more), rest, 4 + |r.body|);
  }

  /**
   What is read was there, octet for octet, and reading leaves a tail unread only behind an
   end of message or a break.
   */
  lemma {:induction false} ReadsWhatIsThere(rest: seq<byte>, at: nat)
    ensures ReadFrom(Records(rest, at), rest)
    decreases |rest|
  {
    hide Laid, Peeked;
    if rest == [] {
    } else if Peeked(rest).None? {
      RecordsBreak(rest, at);
      assert Relaid([Truncated(at)]) == [];
    } else {
      var r := Peeked(rest).value;
      var step := 4 + |r.body|;
      RecordsStep(rest, at, r);
      if r.recordType == END_OF_MESSAGE {
        ReadOn(r, [], rest);
      } else {
        ReadsWhatIsThere(rest[step..], at + step);
        ReadOn(r, Records(rest[step..], at + step), rest);
      }
    }
  }
}
