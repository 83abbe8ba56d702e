/** Extension fields: the layout of RFC 7822, written and read back. */
module ExtensionFields {
  import opened Wrappers
  import opened Bytes

  const UNIQUE_IDENTIFIER: nat := 0x0104
  const NTS_COOKIE: nat := 0x0204
  const NTS_COOKIE_PLACEHOLDER: nat := 0x0304
  const NTS_AUTHENTICATOR: nat := 0x0404

  const HEADER_LEN: nat := 48
  const MIN_EF_LEN: nat := 16
  const WIDE: nat := 0x1_0000

  function RoundUp4(n: nat): (r: nat)
    ensures n <= r < n + 4 && r % 4 == 0
  {
    (n + 3) / 4 * 4
  }

  /** The whole length of a field: header and body, padded to words and to the minimum. */
  function Total(bodyLen: nat): (t: nat)
    ensures t >= MIN_EF_LEN && t % 4 == 0 && t >= 4 + bodyLen
  {
    if RoundUp4(4 + bodyLen) < MIN_EF_LEN then MIN_EF_LEN else RoundUp4(4 + bodyLen)
  }

  /** A body with the padding its field gives it. */
  function Padded(body: seq<byte>): (p: seq<byte>)
    ensures |p| == Total(|body|) - 4
  {
    body + Zeros(Total(|body|) - 4 - |body|)
  }

  function Laid(fieldType: nat, body: seq<byte>): (f: seq<byte>)
    ensures |f| == Total(|body|)
  {
    Octets(fieldType, 2) + Octets(Total(|body|), 2) + Padded(body)
  }

  /** The same, `depth` removes away; FieldBytesMeans opens it. */
  function LaidThrough(depth: nat, fieldType: nat, body: seq<byte>): (f: seq<byte>)
    ensures |f| == Total(|body|)
  {
    if depth == 0 then Laid(fieldType, body) else LaidThrough(depth - 1, fieldType, body)
  }

  /** One field on the wire. */
  function FieldBytes(fieldType: nat, body: seq<byte>): (f: seq<byte>)
    ensures |f| == Total(|body|)
  {
    LaidThrough(3, fieldType, body)
  }

  lemma FieldBytesMeans(fieldType: nat, body: seq<byte>)
    ensures FieldBytes(fieldType, body) == Octets(fieldType, 2) + Octets(Total(|body|), 2) + Padded(body)
  {
    assert LaidThrough(1, fieldType, body) == Laid(fieldType, body);
    assert LaidThrough(3, fieldType, body) == LaidThrough(1, fieldType, body);
  }

  method WriteField(out: seq<byte>, fieldType: nat, body: seq<byte>) returns (r: seq<byte>)
    ensures r == out + FieldBytes(fieldType, body)
  {
    var total := Total(|body|);
    FieldBytesMeans(fieldType, body);
    r := out + Octets(fieldType, 2);
    r := r + Octets(total, 2);
    r := r + body;
    r := r + Zeros(total - 4 - |body|);
  }

  function Concat(parts: seq<seq<byte>>): seq<byte> {
    if parts == [] then [] else Concat(parts[..|parts| - 1]) + parts[|parts| - 1]
  }

  method SumLengths(parts: seq<seq<byte>>) returns (n: nat)
    ensures n == |Concat(parts)|
  {
    n := 0;
    for i := 0 to |parts|
      invariant n == |Concat(parts[..i])|
    {
      assert parts[..i + 1][..i] == parts[..i];
      n := n + |parts[i]|;
    }
    assert parts[..|parts|] == parts;
  }

  /** A field whose body comes in pieces: the same bytes as for the pieces joined. */
  method WriteFieldParts(out: seq<byte>, fieldType: nat, parts: seq<seq<byte>>) returns (r: seq<byte>)
    ensures r == out + FieldBytes(fieldType, Concat(parts))
  {
    var bodyLen := SumLengths(parts);
    var total := Total(bodyLen);
    var head := Octets(fieldType, 2) + Octets(total, 2);
    r := out + head;
    for i := 0 to |parts|
      invariant r == out + (head + Concat(parts[..i]))
    {
      assert parts[..i + 1][..i] == parts[..i];
      r := r + parts[i];
    }
    assert parts[..|parts|] == parts;
    FieldBytesMeans(fieldType, Concat(parts));
    r := r + Zeros(total - 4 - bodyLen);
  }

  /** A field of zeros, without making the zeros first. */
  method WriteZeroField(out: seq<byte>, fieldType: nat, len: nat) returns (r: seq<byte>)
    ensures r == out + FieldBytes(fieldType, Zeros(len))
  {
    var total := Total(len);
    r := out + Octets(fieldType, 2) + Octets(total, 2);
    r := r + Zeros(total - 4);
    FieldBytesMeans(fieldType, Zeros(len));
    assert Padded(Zeros(len)) == Zeros(total - 4);
  }

  // ----- the authenticator -----

  function Aligned(s: seq<byte>): (a: seq<byte>)
    ensures |a| == RoundUp4(|s|)
  {
    s + Zeros(RoundUp4(|s|) - |s|)
  }

  function AuthenticatorBody(nonce: seq<byte>, ciphertext: seq<byte>): (b: seq<byte>)
    ensures |b| == 4 + RoundUp4(|nonce|) + RoundUp4(|ciphertext|)
  {
    Octets(|nonce|, 2) + Octets(|ciphertext|, 2) + Aligned(nonce) + Aligned(ciphertext)
  }

  method AppendAligned(out: seq<byte>, s: seq<byte>) returns (r: seq<byte>)
    ensures r == out + Aligned(s)
  {
    r := out + s;
    r := r + Zeros(RoundUp4(|s|) - |s|);
  }

  /** Append the authenticator field straight to `out`: the bytes of the field with that body. */
  method WriteAuthenticator(out: seq<byte>, nonce: seq<byte>, ciphertext: seq<byte>) returns (r: seq<byte>)
    ensures r == out + FieldBytes(NTS_AUTHENTICATOR, AuthenticatorBody(nonce, ciphertext))
  {
    hide Octets, Aligned;
    var bodyLen := 4 + RoundUp4(|nonce|) + RoundUp4(|ciphertext|);
    var total := Total(bodyLen);
    r := out + Octets(NTS_AUTHENTICATOR, 2);
    r := r + Octets(total, 2);
    ghost var head := Octets(NTS_AUTHENTICATOR, 2) + Octets(total, 2);
    assert r == out + head;
    r := r + Octets(|nonce|, 2);
    r := r + Octets(|ciphertext|, 2);
    r := AppendAligned(r, nonce);
    r := AppendAligned(r, ciphertext);
    assert r == out + (head + AuthenticatorBody(nonce, ciphertext));
    r := r + Zeros(total - 4 - bodyLen);
    FieldBytesMeans(NTS_AUTHENTICATOR, AuthenticatorBody(nonce, ciphertext));
  }

  // ----- reading -----

  datatype Field = Field(fieldType: nat, body: seq<byte>, offset: nat)

  function PeekRaw(rest: seq<byte>): (r: Option<(nat, nat)>)
    ensures r.Some? ==> MIN_EF_LEN <= r.value.1 <= |rest|
  {
    if |rest| < 4 then None
    else
      var total := Value(rest[2..4]);
      if total < MIN_EF_LEN || total % 4 != 0 || total > |rest| then None
      else Some((Value(rest[..2]), total))
  }

  /** The same, `depth` removes away; PeekMeans opens it. */
  function PeekThrough(depth: nat, rest: seq<byte>): (r: Option<(nat, nat)>)
    ensures r.Some? ==> MIN_EF_LEN <= r.value.1 <= |rest|
  {
    if depth == 0 then PeekRaw(rest) else PeekThrough(depth - 1, rest)
  }

  /** The type and length at the start of `rest`, if they make a well-formed field. */
  function Peek(rest: seq<byte>): (r: Option<(nat, nat)>)
    ensures r.Some? ==> MIN_EF_LEN <= r.value.1 <= |rest|
  {
    PeekThrough(3, rest)
  }

  lemma PeekMeans(rest: seq<byte>)
    ensures Peek(rest) == PeekRaw(rest)
  {
    assert PeekThrough(1, rest) == PeekRaw(rest);
    assert PeekThrough(3, rest) == PeekThrough(1, rest);
  }

  function Scan(packet: seq<byte>, at: nat): (fs: seq<Field>)
    requires at <= |packet|
    decreases |packet| - at
  {
    match Peek(packet[at..])
    case None => []
    case Some((fieldType, total)) =>
      [Field(fieldType, packet[at + 4..at + total], at)] + Scan(packet, at + total)
  }

  /** The same, `depth` removes away; FieldsMeans opens it. */
  function ScanThrough(depth: nat, packet: seq<byte>, at: nat): (fs: seq<Field>)
    requires at <= |packet|
  {
    if depth == 0 then Scan(packet, at) else ScanThrough(depth - 1, packet, at)
  }

  /** The fields from `at` on, up to the first that is not well formed. */
  function FieldsFrom(packet: seq<byte>, at: nat): (fs: seq<Field>)
    requires at <= |packet|
  {
    ScanThrough(3, packet, at)
  }

  lemma FieldsMeans(packet: seq<byte>, at: nat)
    requires at <= |packet|
    ensures FieldsFrom(packet, at) == Scan(packet, at)
  {
    assert ScanThrough(1, packet, at) == Scan(packet, at);
    assert ScanThrough(3, packet, at) == ScanThrough(1, packet, at);
  }

  lemma FieldsEnd(packet: seq<byte>, at: nat)
    requires at <= |packet| && Peek(packet[at..]).None?
    ensures FieldsFrom(packet, at) == []
  {
    FieldsMeans(packet, at);
  }

  lemma FieldsStep(packet: seq<byte>, at: nat, fieldType: nat, total: nat)
    requires at <= |packet| && Peek(packet[at..]) == Some((fieldType, total))
    ensures at + total <= |packet|
    ensures FieldsFrom(packet, at)
            == [Field(fieldType, packet[at + 4..at + total], at)] + FieldsFrom(packet, at + total)
  {
    FieldsMeans(packet, at);
    FieldsMeans(packet, at + total);
  }

  function Start(packet: seq<byte>): (at: nat)
    ensures at <= |packet|
  {
    if HEADER_LEN <= |packet| then HEADER_LEN else |packet|
  }

  function Fields(packet: seq<byte>): seq<Field> {
    FieldsFrom(packet, Start(packet))
  }

  /** The cursor loop: every field in order. */
  method ReadFields(packet: seq<byte>) returns (fs: seq<Field>)
    ensures fs == Fields(packet)
  {
    fs := [];
    var at := Start(packet);
    var peeked := Peek(packet[at..]);
    while peeked.Some?
      invariant at <= |packet| && peeked == Peek(packet[at..])
      invariant fs + FieldsFrom(packet, at) == Fields(packet)
      decreases |packet| - at
    {
      var (fieldType, total) := peeked.value;
      FieldsStep(packet, at, fieldType, total);
      fs := fs + [Field(fieldType, packet[at + 4..at + total], at)];
      at := at + total;
      peeked := Peek(packet[at..]);
    }
    FieldsEnd(packet, at);
  }

  lemma PeekWritten(fieldType: nat, body: seq<byte>, rest: seq<byte>)
    requires fieldType < WIDE && Total(|body|) < WIDE
    ensures Peek(FieldBytes(fieldType, body) + rest) == Some((fieldType, Total(|body|)))
  {
    var f := FieldBytes(fieldType, body) + rest;
    FieldBytesMeans(fieldType, body);
    PeekMeans(f);
    assert f[..2] == Octets(fieldType, 2);
    assert f[2..4] == Octets(Total(|body|), 2);
    Spans();
    OctetsFit(fieldType, 2);
    OctetsFit(Total(|body|), 2);
  }

  lemma SliceOfMiddle(before: seq<byte>, f: seq<byte>, rest: seq<byte>, k: nat)
    requires k <= |f|
    ensures (before + f + rest)[|before|..] == f + rest
    ensures (before + f + rest)[|before| + k..|before| + |f|] == f[k..]
  {
  }

  lemma BodyOfField(fieldType: nat, body: seq<byte>)
    ensures FieldBytes(fieldType, body)[4..] == Padded(body)
  {
    FieldBytesMeans(fieldType, body);
  }

  lemma ReadsAt(before: seq<byte>, f: seq<byte>, rest: seq<byte>, packet: seq<byte>, fieldType: nat, total: nat,
                body: seq<byte>)
    requires packet == before + f + rest && |f| == total >= 4 && f[4..] == body
    requires Peek(f + rest) == Some((fieldType, total))
    ensures |before| + total <= |packet|
    ensures FieldsFrom(packet, |before|) == [Field(fieldType, body, |before|)] + FieldsFrom(packet, |before| + total)
  {
    SliceOfMiddle(before, f, rest, 4);
    FieldsStep(packet, |before|, fieldType, total);
  }

  /** A written field is read back as it was written, with its padding, and reading goes on after it. */
  lemma ReadsWritten(before: seq<byte>, fieldType: nat, body: seq<byte>, rest: seq<byte>, packet: seq<byte>)
    requires fieldType < WIDE && Total(|body|) < WIDE
    requires packet == before + FieldBytes(fieldType, body) + rest
    ensures |before| + Total(|body|) <= |packet|
    ensures FieldsFrom(packet, |before|)
            == [Field(fieldType, Padded(body), |before|)] + FieldsFrom(packet, |before| + Total(|body|))
  {
    PeekWritten(fieldType, body, rest);
    BodyOfField(fieldType, body);
    ReadsAt(before, FieldBytes(fieldType, body), rest, packet, fieldType, Total(|body|), Padded(body));
  }

  /** A body of whole words that fills its field comes back exactly. */
  lemma NoPadding(body: seq<byte>)
    requires |body| % 4 == 0 && |body| >= 12
    ensures Total(|body|) == 4 + |body| && Padded(body) == body
  {
    assert Zeros(0) == [];
    assert body + [] == body;
  }

  /** The bytes of a field where it was found. */
  function Extent(packet: seq<byte>, f: Field): seq<byte> {
    if f.offset + 4 + |f.body| <= |packet| then packet[f.offset..f.offset + 4 + |f.body|] else []
  }

  /** The bytes of the fields, laid end to end. */
  function Joined(packet: seq<byte>, fs: seq<Field>): seq<byte> {
    if fs == [] then [] else Extent(packet, fs[0]) + Joined(packet, fs[1..])
  }

  /** Where reading from `at` stops. */
  function Stop(packet: seq<byte>, at: nat): (end: nat)
    requires at <= |packet|
    ensures at <= end <= |packet|
    decreases |packet| - at
  {
    match Peek(packet[at..])
    case None => at
    case Some((_, total)) => Stop(packet, at + total)
  }

  lemma JoinedStep(packet: seq<byte>, f: Field, rest: seq<Field>)
    ensures Joined(packet, [f] + rest) == Extent(packet, f) + Joined(packet, rest)
  {
    assert ([f] + rest)[1..] == rest;
  }

  lemma Regroup(packet: seq<byte>, at: nat, total: nat, joined: seq<byte>, left: seq<byte>)
    requires at + total <= |packet| && joined + left == packet[at + total..]
    ensures (packet[at..at + total] + joined) + left == packet[at..]
  {
    assert packet[at..] == packet[at..at + total] + packet[at + total..];
    assert (packet[at..at + total] + joined) + left == packet[at..at + total] + (joined + left);
  }

  ghost predicate Lies(packet: seq<byte>, at: nat, fs: seq<Field>) {
    forall f | f in fs :: at <= f.offset && f.offset + 4 + |f.body| <= |packet|
  }

  /** The fields and what is left over make up the tail: nothing is skipped and nothing read twice. */
  lemma {:induction false} FieldsPartition(packet: seq<byte>, at: nat)
    requires at <= |packet|
    ensures Lies(packet, at, FieldsFrom(packet, at))
    ensures Joined(packet, FieldsFrom(packet, at)) + packet[Stop(packet, at)..] == packet[at..]
    ensures Peek(packet[Stop(packet, at)..]).None?
    decreases |packet| - at
  {
    var peeked := Peek(packet[at..]);
    if peeked.Some? {
      var (fieldType, total) := peeked.value;
      FieldsStep(packet, at, fieldType, total);
      FieldsPartition(packet, at + total);
      var f, rest := Field(fieldType, packet[at + 4..at + total], at), FieldsFrom(packet, at + total);
      JoinedStep(packet, f, rest);
      Regroup(packet, at, total, Joined(packet, rest), packet[Stop(packet, at + total)..]);
    } else {
      FieldsEnd(packet, at);
    }
  }
}
