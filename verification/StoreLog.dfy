/** The store's file: a log of records, one an entry, and what replaying it rebuilds. */
module StoreLog {
  import opened Wrappers
  import opened Bytes

  const COLLECTIONS: nat := 3
  const WIDE: nat := 0x1_0000_0000

  /** Text as octets and back. */
  datatype Codec = Codec(encode: string -> seq<byte>, decode: seq<byte> -> Option<string>)

  ghost predicate Lawful(codec: Codec) {
    forall s: string :: codec.decode(codec.encode(s)) == Some(s)
  }

  /** Only what encodes a text decodes to it. */
  ghost predicate Strict(codec: Codec) {
    forall s: string, b: seq<byte> :: codec.decode(b) == Some(s) ==> codec.encode(s) == b
  }

  predicate Plain(s: string) {
    forall i | 0 <= i < |s| :: s[i] as int < 128
  }

  /** Plain text takes one octet a character. */
  ghost predicate Ascii(codec: Codec) {
    forall s: string | Plain(s) ::
      |codec.encode(s)| == |s| && forall i | 0 <= i < |s| :: codec.encode(s)[i] == s[i] as int
  }

  lemma PlainBytes(codec: Codec, s: string, k: nat)
    requires Ascii(codec) && Plain(s) && k <= |s|
    ensures |codec.encode(s)| == |s| && Plain(s[..k]) && codec.encode(s[..k]) == codec.encode(s)[..k]
    ensures forall i | 0 <= i < |s| :: codec.encode(s)[i] == s[i] as int
  {
    var t := s[..k];
    assert Plain(t);
    assert |codec.encode(t)| == k;
  }

  type Slot = (nat, string)

  datatype Entry = Entry(slot: Slot, value: string)

  datatype Loaded = Loaded(values: map<Slot, string>) | EndedMidRecord | UnknownCollection | NotText

  function TextBytes(codec: Codec, s: string): seq<byte> {
    Octets(|codec.encode(s)|, 4) + codec.encode(s)
  }

  function Laid(codec: Codec, e: Entry): seq<byte> {
    Octets(e.slot.0, 2) + TextBytes(codec, e.slot.1) + TextBytes(codec, e.value)
  }

  function Log(codec: Codec, es: seq<Entry>): seq<byte> {
    if es == [] then [] else Log(codec, es[..|es| - 1]) + Laid(codec, es[|es| - 1])
  }

  lemma LogGrows(codec: Codec, es: seq<Entry>, e: Entry)
    ensures Log(codec, es + [e]) == Log(codec, es) + Laid(codec, e)
  {
    assert (es + [e])[..|es|] == es;
  }

  method AppendEntry(codec: Codec, out: seq<byte>, slot: Slot, value: string) returns (blob: seq<byte>)
    ensures blob == out + Laid(codec, Entry(slot, value))
  {
    blob := out + Octets(slot.0, 2);
    var key := codec.encode(slot.1);
    blob := blob + Octets(|key|, 4);
    blob := blob + key;
    var text := codec.encode(value);
    blob := blob + Octets(|text|, 4);
    blob := blob + text;
  }

  function PutAll(values: map<Slot, string>, es: seq<Entry>): map<Slot, string> {
    if es == [] then values
    else PutAll(values, es[..|es| - 1])[es[|es| - 1].slot := es[|es| - 1].value]
  }

  /** A length and that many octets. */
  function Chunk(rest: seq<byte>): (c: Option<(seq<byte>, seq<byte>)>)
    ensures c.Some? ==> |rest| == 4 + |c.value.0| + |c.value.1|
  {
    if |rest| < 4 || |rest| < 4 + Value(rest[..4]) then None
    else Some((rest[4..4 + Value(rest[..4])], rest[4 + Value(rest[..4])..]))
  }

  datatype Parsed = Good(entry: Entry, rest: seq<byte>) | Bad(why: Loaded)

  /** The record at the start of `rest`. */
  function Parse(codec: Codec, rest: seq<byte>): (p: Parsed)
    ensures p.Good? ==> |p.rest| < |rest| && p.entry.slot.0 < COLLECTIONS
    ensures p.Bad? ==> !p.why.Loaded?
  {
    if |rest| < 2 then Bad(EndedMidRecord)
    else
      var collection := Value(rest[..2]);
      if collection >= COLLECTIONS then Bad(UnknownCollection)
      else
        match Chunk(rest[2..])
        case None => Bad(EndedMidRecord)
        case Some((rawKey, afterKey)) =>
          match codec.decode(rawKey)
          case None => Bad(NotText)
          case Some(key) =>
            match Chunk(afterKey)
            case None => Bad(EndedMidRecord)
            case Some((rawValue, after)) =>
              match codec.decode(rawValue)
              case None => Bad(NotText)
              case Some(value) => Good(Entry((collection, key), value), after)
  }

  /** Replaying the log onto what is already there. */
  function Replay(codec: Codec, rest: seq<byte>, values: map<Slot, string>): (l: Loaded)
    decreases |rest|
  {
    if rest == [] then Loaded(values)
    else
      match Parse(codec, rest)
      case Bad(why) => why
      case Good(e, after) => Replay(codec, after, values[e.slot := e.value])
  }

  // ----- written and replayed -----

  /** Short enough for its length field. */
  ghost predicate Fits(codec: Codec, e: Entry) {
    e.slot.0 < COLLECTIONS && |codec.encode(e.slot.1)| < WIDE && |codec.encode(e.value)| < WIDE
  }

  lemma ChunkOfText(codec: Codec, s: string, more: seq<byte>)
    requires |codec.encode(s)| < WIDE
    ensures Chunk(TextBytes(codec, s) + more) == Some((codec.encode(s), more))
  {
    var rest := TextBytes(codec, s) + more;
    Spans();
    OctetsFit(|codec.encode(s)|, 4);
    assert rest[..4] == Octets(|codec.encode(s)|, 4);
    assert rest[4..4 + |codec.encode(s)|] == codec.encode(s);
  }

  lemma ParseOfLaid(codec: Codec, e: Entry, more: seq<byte>)
    requires Lawful(codec) && Fits(codec, e)
    ensures Parse(codec, Laid(codec, e) + more) == Good(e, more)
  {
    var rest := Laid(codec, e) + more;
    Spans();
    OctetsFit(e.slot.0, 2);
    assert rest[..2] == Octets(e.slot.0, 2);
    ChunkOfText(codec, e.slot.1, TextBytes(codec, e.value) + more);
    assert rest[2..] == TextBytes(codec, e.slot.1) + (TextBytes(codec, e.value) + more);
    ChunkOfText(codec, e.value, more);
  }

  /** Replaying a log puts its entries one after the other. */
  lemma {:induction false} ReplayOfLog(codec: Codec, es: seq<Entry>, more: seq<byte>, values: map<Slot, string>)
    requires Lawful(codec) && forall e | e in es :: Fits(codec, e)
    ensures Replay(codec, Log(codec, es) + more, values) == Replay(codec, more, PutAll(values, es))
    decreases |es|
  {
    if es == [] {
      assert Log(codec, es) + more == more;
    } else {
      var front, e := es[..|es| - 1], es[|es| - 1];
      assert Log(codec, es) + more == Log(codec, front) + (Laid(codec, e) + more);
      ReplayOfLog(codec, front, Laid(codec, e) + more, values);
      ParseOfLaid(codec, e, more);
    }
  }

  /** What is read of a chunk is short enough for its length field. */
  lemma ChunkIsShort(rest: seq<byte>)
    ensures Chunk(rest).Some? ==> |Chunk(rest).value.0| < WIDE
  {
    if Chunk(rest).Some? {
      OctetsOfValue(rest[..4]);
      Spans();
    }
  }

  lemma ParsedFits(codec: Codec, rest: seq<byte>)
    requires Strict(codec)
    ensures Parse(codec, rest).Good? ==> Fits(codec, Parse(codec, rest).entry)
  {
    hide Value;
    if Parse(codec, rest).Good? {
      ChunkIsShort(rest[2..]);
      ChunkIsShort(Chunk(rest[2..]).value.1);
    }
  }

  ghost predicate AllFit(codec: Codec, values: map<Slot, string>) {
    forall k | k in values :: Fits(codec, Entry(k, values[k]))
  }

  /** Whatever the file, what is loaded from it fits. */
  lemma {:induction false} LoadedFits(codec: Codec, rest: seq<byte>, values: map<Slot, string>)
    requires Strict(codec) && AllFit(codec, values)
    ensures Replay(codec, rest, values).Loaded? ==> AllFit(codec, Replay(codec, rest, values).values)
    decreases |rest|
  {
    hide Parse;
    if rest != [] {
      ParsedFits(codec, rest);
      match Parse(codec, rest) {
        case Bad(_) =>
        case Good(e, after) => LoadedFits(codec, after, values[e.slot := e.value]);
      }
    }
  }

  ghost predicate OfMap(es: seq<Entry>, values: map<Slot, string>) {
    forall e | e in es :: e.slot in values && values[e.slot] == e.value
  }

  /** A log of a map's entries, replayed onto nothing, rebuilds the map if and only if all of it fits. */
  lemma RebuildsMap(codec: Codec, es: seq<Entry>, values: map<Slot, string>)
    requires Lawful(codec) && Strict(codec) && PutAll(map[], es) == values && OfMap(es, values)
    ensures Replay(codec, Log(codec, es), map[]) == Loaded(values) <==> AllFit(codec, values)
  {
    LoadedFits(codec, Log(codec, es), map[]);
    if AllFit(codec, values) {
      forall e | e in es
        ensures Fits(codec, e)
      {
        assert e == Entry(e.slot, values[e.slot]);
      }
      ReplayOfLog(codec, es, [], map[]);
      assert Log(codec, es) + [] == Log(codec, es);
    }
  }

  /** Digits where a collection should be. */
  lemma DigitsAreNoCollection(codec: Codec, b: seq<byte>)
    requires |b| >= 2 && b[0] >= 48
    ensures Parse(codec, b) == Bad(UnknownCollection)
  {
    assert Value(b[..2]) == Value(b[..2][..1]) * 256 + b[1];
    assert Value(b[..1]) == Value(b[..1][..0]) * 256 + b[0];
    assert b[..2][..1] == b[..1];
  }

  lemma LengthWraps(n: nat)
    ensures Octets(n, 4) == Octets(n % WIDE, 4)
  {
    Spans();
    OctetsWrap(n, 4);
  }

  /** A long text is laid out like its first few characters, with the others behind it. */
  lemma LaidCut(codec: Codec, slot: Slot, long: string)
    requires Ascii(codec) && Plain(long)
    ensures var kept := long[..|long| % WIDE];
            && Plain(kept) && |codec.encode(kept)| < WIDE
            && Laid(codec, Entry(slot, long)) == Laid(codec, Entry(slot, kept)) + codec.encode(long)[|long| % WIDE..]
  {
    var k := |long| % WIDE;
    var kept, b := long[..k], codec.encode(long);
    hide Octets, Ascii;
    LengthWraps(|long|);
    PlainBytes(codec, long, k);
    assert b == b[..k] + b[k..];
    assert TextBytes(codec, long) == TextBytes(codec, kept) + b[k..];
  }

  /**
   A text of digits too long for its length field takes the whole file with it, whatever
   was written before it and comes behind it: its length is cut, and what the cut leaves
   out is read as a record.
   */
  lemma LongTextLosesTheFile(codec: Codec, es: seq<Entry>, slot: Slot, long: string, more: seq<byte>,
                             values: map<Slot, string>)
    requires Lawful(codec) && Ascii(codec) && Plain(long) && |long| >= WIDE
    requires forall i | 0 <= i < |long| :: long[i] as int >= 48
    requires forall e | e in es :: Fits(codec, e)
    requires slot.0 < COLLECTIONS && |codec.encode(slot.1)| < WIDE
    ensures Replay(codec, Log(codec, es) + (Laid(codec, Entry(slot, long)) + more), values) == UnknownCollection
  {
    hide Laid, Log, Parse;
    var k := |long| % WIDE;
    var b, e := codec.encode(long), Entry(slot, long[..k]);
    LaidCut(codec, slot, long);
    PlainBytes(codec, long, k);
    ReplayOfLog(codec, es, Laid(codec, Entry(slot, long)) + more, values);
    assert Laid(codec, Entry(slot, long)) + more == Laid(codec, e) + (b[k..] + more);
    ParseOfLaid(codec, e, b[k..] + more);
    assert (b[k..] + more)[0] == b[k] == long[k] as int;
    DigitsAreNoCollection(codec, b[k..] + more);
  }

  // ----- the laws of text can be met -----

  predicate IsChar(v: nat) {
    v < 0xD800 || 0xE000 <= v < 0x11_0000
  }

  /** One octet a plain character, a mark and three octets any other. */
  function CharBytes(c: char): (b: seq<byte>)
    ensures |b| >= 1
  {
    if c as int < 128 then [c as int] else [255] + Octets(c as int, 3)
  }

  function MarkedEncode(s: string): seq<byte> {
    if s == [] then [] else CharBytes(s[0]) + MarkedEncode(s[1..])
  }

  function MarkedDecode(b: seq<byte>): Option<string> {
    if b == [] then Some([])
    else if b[0] < 128 then Behind(b[0] as char, MarkedDecode(b[1..]))
    else if b[0] != 255 || |b| < 4 || Value(b[1..4]) < 128 || !IsChar(Value(b[1..4])) then None
    else Behind(Value(b[1..4]) as char, MarkedDecode(b[4..]))
  }

  function Behind(c: char, rest: Option<string>): Option<string> {
    if rest.None? then None else Some([c] + rest.value)
  }

  lemma {:induction false} MarkedReadsBack(s: string)
    ensures MarkedDecode(MarkedEncode(s)) == Some(s)
  {
    if s != [] {
      MarkedReadsBack(s[1..]);
      var b, c := MarkedEncode(s), s[0];
      assert b[|CharBytes(c)|..] == MarkedEncode(s[1..]) && s == [c] + s[1..];
      if c as int >= 128 {
        assert b[1..4] == Octets(c as int, 3);
        assert Span(3) == 256 * Span(2) && Span(2) == 256 * Span(1);
        OctetsFit(c as int, 3);
      }
    }
  }

  lemma {:induction false} MarkedWritesBack(b: seq<byte>)
    ensures MarkedDecode(b).Some? ==> MarkedEncode(MarkedDecode(b).value) == b
    decreases |b|
  {
    if MarkedDecode(b).Some? && b != [] {
      var n := if b[0] < 128 then 1 else 4;
      MarkedWritesBack(b[n..]);
      OctetsOfValue(b[1..n]);
      var s := MarkedDecode(b).value;
      assert s[1..] == MarkedDecode(b[n..]).value;
      assert b == b[..n] + b[n..] && CharBytes(s[0]) == b[..n];
    }
  }

  lemma {:induction false} MarkedIsPlain(s: string)
    requires Plain(s)
    ensures |MarkedEncode(s)| == |s| && forall i | 0 <= i < |s| :: MarkedEncode(s)[i] == s[i] as int
  {
    if s != [] {
      MarkedIsPlain(s[1..]);
    }
  }

  /** There are texts and octets that keep all three laws at once. */
  lemma TextLawsCanBeMet() returns (codec: Codec)
    ensures Lawful(codec) && Strict(codec) && Ascii(codec)
  {
    codec := Codec(MarkedEncode, MarkedDecode);
    forall s: string
      ensures MarkedDecode(MarkedEncode(s)) == Some(s)
    {
      MarkedReadsBack(s);
    }
    forall s: string, b: seq<byte> | MarkedDecode(b) == Some(s)
      ensures MarkedEncode(s) == b
    {
      MarkedWritesBack(b);
    }
    forall s: string | Plain(s)
      ensures |MarkedEncode(s)| == |s| && forall i | 0 <= i < |s| :: MarkedEncode(s)[i] == s[i] as int
    {
      MarkedIsPlain(s);
    }
  }
}
