/** The fixed NTP header, its image on the wire, and what follows it. */
module NtpPacket {
  import opened Wrappers
  import opened Bytes
  import opened ExtensionFields

  type Word = n: nat | n < 0x1_0000_0000
  type Stamp = n: nat | n < 0x1_0000_0000_0000_0000
  type Signed = n: int | -128 <= n < 128

  datatype Packet = Packet(
    leap: nat, version: byte, mode: nat, stratum: byte, poll: Signed, precision: Signed,
    rootDelay: Word, rootDispersion: Word, referenceId: seq<byte>,
    reference: Stamp, origin: Stamp, receive: Stamp, transmit: Stamp)

  datatype Parsed = Parsed(packet: Packet) | TooShort(len: nat) | BadVersion(version: nat)

  const CLIENT: nat := 3
  const SERVER: nat := 4

  predicate WellFormed(p: Packet) {
    p.leap < 4 && p.mode < 8 && |p.referenceId| == 4
  }

  function Unsigned(n: Signed): byte {
    if n < 0 then n + 256 else n
  }

  function SignedOf(b: byte): Signed {
    if b >= 128 then b - 256 else b
  }

  /** Leap, version and mode in one octet; a version wider than three bits is cut off. */
  function First(p: Packet): byte
    requires WellFormed(p)
  {
    p.leap * 64 + p.version % 8 * 8 + p.mode
  }

  /** The 48 octets of the header. */
  function Image(p: Packet): (s: seq<byte>)
    requires WellFormed(p)
    ensures |s| == HEADER_LEN
  {
    [First(p), p.stratum, Unsigned(p.poll), Unsigned(p.precision)]
    + Octets(p.rootDelay, 4) + Octets(p.rootDispersion, 4) + p.referenceId
    + Octets(p.reference, 8) + Octets(p.origin, 8) + Octets(p.receive, 8) + Octets(p.transmit, 8)
  }

  lemma ValueIsNarrow(s: seq<byte>, width: nat)
    requires |s| == width
    ensures width == 4 ==> Value(s) < 0x1_0000_0000
    ensures width == 8 ==> Value(s) < 0x1_0000_0000_0000_0000
  {
    OctetsOfValue(s);
    Spans();
  }

  function WordAt(buf: seq<byte>, at: nat): Word
    requires at + 4 <= |buf|
  {
    ValueIsNarrow(buf[at..at + 4], 4);
    Value(buf[at..at + 4])
  }

  function StampAt(buf: seq<byte>, at: nat): Stamp
    requires at + 8 <= |buf|
  {
    ValueIsNarrow(buf[at..at + 8], 8);
    Value(buf[at..at + 8])
  }

  function Parse(buf: seq<byte>): Parsed {
    if |buf| < HEADER_LEN then TooShort(|buf|)
    else
      var version := buf[0] / 8 % 8;
      if !(3 <= version <= 4) then BadVersion(version)
      else
        Parsed(Packet(
          buf[0] / 64, version, buf[0] % 8, buf[1], SignedOf(buf[2]), SignedOf(buf[3]),
          WordAt(buf, 4), WordAt(buf, 8), buf[12..16],
          StampAt(buf, 16), StampAt(buf, 24), StampAt(buf, 32), StampAt(buf, 40)))
  }

  lemma WordBack(n: Word, buf: seq<byte>, at: nat)
    requires at + 4 <= |buf| && buf[at..at + 4] == Octets(n, 4)
    ensures WordAt(buf, at) == n
  {
    Spans();
    OctetsFit(n, 4);
  }

  lemma StampBack(n: Stamp, buf: seq<byte>, at: nat)
    requires at + 8 <= |buf| && buf[at..at + 8] == Octets(n, 8)
    ensures StampAt(buf, at) == n
  {
    Spans();
    OctetsFit(n, 8);
  }

  /** Where each part of an image lies. */
  lemma ImageParts(p: Packet, tail: seq<byte>)
    requires WellFormed(p)
    ensures var buf := Image(p) + tail;
            && |buf| >= HEADER_LEN
            && buf[0] == First(p) && buf[1] == p.stratum && buf[2] == Unsigned(p.poll)
            && buf[3] == Unsigned(p.precision)
            && buf[4..8] == Octets(p.rootDelay, 4) && buf[8..12] == Octets(p.rootDispersion, 4)
            && buf[12..16] == p.referenceId
            && buf[16..24] == Octets(p.reference, 8) && buf[24..32] == Octets(p.origin, 8)
            && buf[32..40] == Octets(p.receive, 8) && buf[40..48] == Octets(p.transmit, 8)
  {
  }

  lemma FirstParts(p: Packet)
    requires WellFormed(p)
    ensures First(p) / 64 == p.leap && First(p) % 8 == p.mode && First(p) / 8 % 8 == p.version % 8
  {
  }

  lemma FirstWhole(b: byte)
    ensures b / 64 * 64 + b / 8 % 8 % 8 * 8 + b % 8 == b
  {
  }

  /** Parsing what was written, whatever follows it, gives the packet back: for exactly the versions served. */
  lemma ParseOfWritten(p: Packet, tail: seq<byte>)
    requires WellFormed(p)
    ensures Parse(Image(p) + tail) == Parsed(p) <==> 3 <= p.version <= 4
  {
    hide Octets, Value, Image;
    ImageParts(p, tail);
    FirstParts(p);
    var buf := Image(p) + tail;
    WordBack(p.rootDelay, buf, 4);
    WordBack(p.rootDispersion, buf, 8);
    StampBack(p.reference, buf, 16);
    StampBack(p.origin, buf, 24);
    StampBack(p.receive, buf, 32);
    StampBack(p.transmit, buf, 40);
  }

  lemma OctetsBack(buf: seq<byte>, at: nat, width: nat)
    requires at + width <= |buf|
    ensures Octets(Value(buf[at..at + width]), width) == buf[at..at + width]
  {
    OctetsOfValue(buf[at..at + width]);
  }

  /** Writing what was parsed gives the first 48 octets back. */
  lemma WrittenOfParse(buf: seq<byte>)
    requires Parse(buf).Parsed?
    ensures WellFormed(Parse(buf).packet) && Image(Parse(buf).packet) == buf[..HEADER_LEN]
  {
    hide Octets, Value;
    OctetsBack(buf, 4, 4);
    OctetsBack(buf, 8, 4);
    OctetsBack(buf, 16, 8);
    OctetsBack(buf, 24, 8);
    OctetsBack(buf, 32, 8);
    OctetsBack(buf, 40, 8);
    FirstWhole(buf[0]);
    assert buf[..HEADER_LEN]
           == buf[..4] + buf[4..8] + buf[8..12] + buf[12..16] + buf[16..24] + buf[24..32] + buf[32..40] + buf[40..48];
  }

  // ----- writing in place -----

  /** Copy `s` over the buffer from `at` on. */
  method CopyAt(buf: array<byte>, at: nat, s: seq<byte>)
    requires at + |s| <= buf.Length
    modifies buf
    ensures buf[..at] == old(buf[..at]) && buf[at..at + |s|] == s && buf[at + |s|..] == old(buf[at + |s|..])
  {
    for i := 0 to |s|
      invariant forall j | 0 <= j < buf.Length :: buf[j] == if at <= j < at + i then s[j - at] else old(buf[j])
    {
      buf[at + i] := s[i];
    }
  }

  /** Serialize the header into a 48-octet buffer. */
  method Write(p: Packet, buf: array<byte>)
    requires WellFormed(p) && buf.Length == HEADER_LEN
    modifies buf
    ensures buf[..] == Image(p)
  {
    buf[0] := First(p);
    buf[1] := p.stratum;
    buf[2] := Unsigned(p.poll);
    buf[3] := Unsigned(p.precision);
    assert buf[..4] == [First(p), p.stratum, Unsigned(p.poll), Unsigned(p.precision)];
    PutNext(buf, 4, Octets(p.rootDelay, 4));
    PutNext(buf, 8, Octets(p.rootDispersion, 4));
    PutNext(buf, 12, p.referenceId);
    PutNext(buf, 16, Octets(p.reference, 8));
    PutNext(buf, 24, Octets(p.origin, 8));
    PutNext(buf, 32, Octets(p.receive, 8));
    PutNext(buf, 40, Octets(p.transmit, 8));
    assert buf[..] == buf[..48];
  }

  /** Extend the part of the buffer that is written. */
  method PutNext(buf: array<byte>, at: nat, s: seq<byte>)
    requires at + |s| <= buf.Length
    modifies buf
    ensures buf[..at + |s|] == old(buf[..at]) + s
  {
    CopyAt(buf, at, s);
    assert buf[..at + |s|] == buf[..at] + buf[at..at + |s|];
  }

  // ----- what follows the header -----

  /** A well-formed extension field, or whatever is left that is none. */
  datatype Trailer = Extension(fieldType: nat, length: nat, bytes: seq<byte>) | Opaque(bytes: seq<byte>)

  function Trailers(rest: seq<byte>): (ts: seq<Trailer>)
    decreases |rest|
  {
    if rest == [] then []
    else
      match Peek(rest)
      case None => [Opaque(rest)]
      case Some((fieldType, total)) => [Extension(fieldType, total, rest[..total])] + Trailers(rest[total..])
  }

  class ExtensionIter {
    var rest: seq<byte>

    constructor (packet: seq<byte>)
      ensures rest == if |packet| < HEADER_LEN then [] else packet[HEADER_LEN..]
    {
      rest := if |packet| < HEADER_LEN then [] else packet[HEADER_LEN..];
    }

    /** The next item; an opaque one is the last. */
    method Next() returns (t: Option<Trailer>)
      modifies this
      ensures t.None? <==> old(rest) == []
      ensures t.Some? ==> Trailers(old(rest)) == [t.value] + Trailers(rest) && |rest| < |old(rest)|
      ensures t.Some? && t.value.Opaque? ==> rest == []
    {
      if rest == [] {
        return None;
      }
      var peeked := Peek(rest);
      if peeked.Some? {
        var (fieldType, total) := peeked.value;
        t := Some(Extension(fieldType, total, rest[..total]));
        rest := rest[total..];
        return;
      }
      t := Some(Opaque(rest));
      rest := [];
    }
  }

  function TrailerBytes(ts: seq<Trailer>): seq<byte> {
    if ts == [] then [] else ts[0].bytes + TrailerBytes(ts[1..])
  }

  /** The items make up the tail, octet for octet, and only the last can be opaque. */
  lemma {:induction false} TrailersPartition(rest: seq<byte>)
    ensures TrailerBytes(Trailers(rest)) == rest
    ensures forall i | 0 <= i < |Trailers(rest)| - 1 :: Trailers(rest)[i].Extension?
    decreases |rest|
  {
    hide Peek;
    if rest != [] && Peek(rest).Some? {
      var total := Peek(rest).value.1;
      TrailersPartition(rest[total..]);
      assert Trailers(rest)[1..] == Trailers(rest[total..]);
      assert rest == rest[..total] + rest[total..];
    }
  }
}
