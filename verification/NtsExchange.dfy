/** The protected request, the server's answer to it and the client's check of that answer. */
module NtsExchange {
  import opened Wrappers
  import opened Bytes
  import opened Aead
  import opened ExtensionFields
  import opened Cookies

  const UNIQUE_ID_LEN: nat := 32
  const MAX_REPLY_COOKIES: nat := 8

  type UniqueId = u: seq<byte> | |u| == 32 witness seq(32, i => 0)
  type Header = h: seq<byte> | |h| == 48 witness seq(48, i => 0)

  datatype NtsError = MissingAuthenticator | BadTag | UniqueIdMismatch | MalformedField | Nak | PacketTooShort

  datatype Verified = Verified(cookies: seq<seq<byte>>) | Failed(error: NtsError)

  // ----- the request -----

  function Placeholders(len: nat, n: nat): seq<byte> {
    if n == 0 then [] else Placeholders(len, n - 1) + FieldBytes(NTS_COOKIE_PLACEHOLDER, Zeros(len))
  }

  /** Everything before the authenticator, with `extra` placeholders of `len` octets. */
  function Asking(header: Header, uid: UniqueId, cookie: seq<byte>, len: nat, extra: nat): seq<byte> {
    header + FieldBytes(UNIQUE_IDENTIFIER, uid) + FieldBytes(NTS_COOKIE, cookie) + Placeholders(len, extra)
  }

  /** The client's placeholders are as long as its cookie. */
  function Unsealed(header: Header, uid: UniqueId, cookie: seq<byte>, extra: nat): seq<byte> {
    Asking(header, uid, cookie, |cookie|, extra)
  }

  function Sealed(c: Cipher, key: Key, before: seq<byte>, nonce: Nonce, plaintext: seq<byte>): seq<byte> {
    before + FieldBytes(NTS_AUTHENTICATOR, AuthenticatorBody(nonce, c.seal(key, [before, nonce], plaintext)))
  }

  function Request(c: Cipher, header: Header, uid: UniqueId, cookie: seq<byte>, extra: nat, c2s: Key,
                   nonce: Nonce): seq<byte>
  {
    Sealed(c, c2s, Unsealed(header, uid, cookie, extra), nonce, [])
  }

  /** Build a protected request: identifier, cookie, placeholders, and an authenticator over all of it. */
  method ProtectRequest(c: Cipher, header: Header, uid: UniqueId, cookie: seq<byte>, extra: nat, c2s: Key, nonce: Nonce)
    returns (packet: seq<byte>)
    ensures packet == Request(c, header, uid, cookie, extra, c2s, nonce)
  {
    packet := WriteField(header, UNIQUE_IDENTIFIER, uid);
    packet := WriteField(packet, NTS_COOKIE, cookie);
    ghost var before := packet;
    for i := 0 to extra
      invariant packet == before + Placeholders(|cookie|, i)
    {
      packet := WriteZeroField(packet, NTS_COOKIE_PLACEHOLDER, |cookie|);
    }
    var ciphertext := c.seal(c2s, [packet, nonce], []);
    packet := WriteAuthenticator(packet, nonce, ciphertext);
  }

  // ----- opening an authenticator -----

  /** The nonce and ciphertext in an authenticator's body, where they fit it. */
  function SplitBody(body: seq<byte>): (r: Option<(seq<byte>, seq<byte>)>) {
    if |body| < 4 then None
    else
      var nonceLen, ctLen := Value(body[..2]), Value(body[2..4]);
      var ctStart := 4 + RoundUp4(nonceLen);
      if nonceLen == 0 || ctStart + ctLen > |body| then None
      else Some((body[4..4 + nonceLen], body[ctStart..ctStart + ctLen]))
  }

  /** What was written into an authenticator is what is read out of it. */
  lemma SplitWritten(nonce: Nonce, ciphertext: seq<byte>)
    requires |ciphertext| < WIDE
    ensures SplitBody(Padded(AuthenticatorBody(nonce, ciphertext))) == Some((nonce, ciphertext))
  {
    var body := Padded(AuthenticatorBody(nonce, ciphertext));
    assert body[..2] == Octets(16, 2) && body[2..4] == Octets(|ciphertext|, 2);
    Spans();
    OctetsFit(16, 2);
    OctetsFit(|ciphertext|, 2);
    assert RoundUp4(16) == 16;
    assert body[4..20] == nonce && body[20..20 + |ciphertext|] == ciphertext;
  }

  // ----- the server's side -----

  /** What the server picks out of a request, up to its authenticator. */
  datatype Gathered = Gathered(cookie: Option<seq<byte>>, uid: Option<seq<byte>>, placeholders: nat,
                               auth: Option<Field>)

  function Noted(g: Gathered, f: Field): Gathered {
    if f.fieldType == NTS_COOKIE then g.(cookie := Some(f.body))
    else if f.fieldType == UNIQUE_IDENTIFIER then g.(uid := Some(f.body))
    else if f.fieldType == NTS_COOKIE_PLACEHOLDER then g.(placeholders := g.placeholders + 1)
    else g
  }

  function Gather(fs: seq<Field>, g: Gathered): Gathered
    decreases |fs|
  {
    if fs == [] then g
    else if fs[0].fieldType == NTS_AUTHENTICATOR then g.(auth := Some(fs[0]))
    else Gather(fs[1..], Noted(g, fs[0]))
  }

  method GatherFields(request: seq<byte>) returns (g: Gathered)
    ensures g == Gather(Fields(request), Gathered(None, None, 0, None))
  {
    var fs := ReadFields(request);
    g := Gathered(None, None, 0, None);
    assert fs[0..] == fs;
    for i := 0 to |fs|
      invariant Gather(fs, Gathered(None, None, 0, None)) == Gather(fs[i..], g)
    {
      assert fs[i..][1..] == fs[i + 1..];
      if fs[i].fieldType == NTS_AUTHENTICATOR {
        g := g.(auth := Some(fs[i]));
        return;
      }
      g := Noted(g, fs[i]);
    }
  }

  /** Does the authenticator verify over what precedes it? */
  predicate Authentic(c: Cipher, request: seq<byte>, auth: Field, c2s: Key) {
    var parts := SplitBody(auth.body);
    parts.Some? && auth.offset <= |request| && c.open(c2s, [request[..auth.offset], parts.value.0], parts.value.1).Some?
  }

  /** Plain time, nothing, a refusal of the cookie, or a sealed reply. */
  datatype Answer = Plain | Silent | NakReply(bytes: seq<byte>) | Extended(bytes: seq<byte>)

  function Want(placeholders: nat): (n: nat)
    ensures 1 <= n <= MAX_REPLY_COOKIES
  {
    if 1 + placeholders < MAX_REPLY_COOKIES then 1 + placeholders else MAX_REPLY_COOKIES
  }

  function Cut(uid: seq<byte>): (u: seq<byte>)
    ensures |u| <= UNIQUE_ID_LEN
  {
    if |uid| <= UNIQUE_ID_LEN then uid else uid[..UNIQUE_ID_LEN]
  }

  function Reply(c: Cipher, header: Header, uid: seq<byte>, s2c: Key, nonce: Nonce, plaintext: seq<byte>): seq<byte> {
    Sealed(c, s2c, header + FieldBytes(UNIQUE_IDENTIFIER, Cut(uid)), nonce, plaintext)
  }

  /** The answer to an admitted request; `header` is the time it will carry, `nak` the header of a refusal. */
  function AnswerTo(c: Cipher, ring: seq<MasterKey>, request: seq<byte>, header: Header, nak: Header,
                    nonces: seq<Nonce>, nonce: Nonce): Answer
    requires |nonces| == MAX_REPLY_COOKIES
  {
    var g := Gather(Fields(request), Gathered(None, None, 0, None));
    if g.auth.None? then Plain
    else if g.cookie.None? || g.uid.None? then Silent
    else
      match Redeem(c, ring, g.cookie.value)
      case Rejected(_) => NakReply(nak + FieldBytes(UNIQUE_IDENTIFIER, g.uid.value))
      case Redeemed(keys) =>
        if !Authentic(c, request, g.auth.value, keys.c2s) || ring == [] then Silent
        else
          Extended(Reply(c, header, g.uid.value, keys.s2c, nonce,
                         CookieFields(c, ring[|ring| - 1], keys, nonces[..Want(g.placeholders)])))
  }

  method AnswerNts(c: Cipher, ring: seq<MasterKey>, request: seq<byte>, header: Header, nak: Header,
                   nonces: seq<Nonce>, nonce: Nonce) returns (a: Answer)
    requires |nonces| == MAX_REPLY_COOKIES
    ensures a == AnswerTo(c, ring, request, header, nak, nonces, nonce)
  {
    var g := GatherFields(request);
    if g.auth.None? {
      return Plain;
    }
    if g.cookie.None? || g.uid.None? {
      return Silent;
    }
    var redeemed := Redeem(c, ring, g.cookie.value);
    if redeemed.Rejected? {
      var refusal := WriteField(nak, UNIQUE_IDENTIFIER, g.uid.value);
      return NakReply(refusal);
    }
    var keys := redeemed.keys;
    if !Authentic(c, request, g.auth.value, keys.c2s) {
      return Silent;
    }
    var plaintext := MintFieldsInto(c, ring, keys, nonces[..Want(g.placeholders)], []);
    if plaintext.None? {
      return Silent;
    }
    assert plaintext.value == CookieFields(c, ring[|ring| - 1], keys, nonces[..Want(g.placeholders)]);
    var reply := WriteField(header, UNIQUE_IDENTIFIER, Cut(g.uid.value));
    var ciphertext := c.seal(keys.s2c, [reply, nonce], plaintext.value);
    reply := WriteAuthenticator(reply, nonce, ciphertext);
    return Extended(reply);
  }

  // ----- the client's check -----

  /** The cookies among some fields. */
  function CookieBodies(fs: seq<Field>): seq<seq<byte>> {
    if fs == [] then []
    else (if fs[0].fieldType == NTS_COOKIE then [fs[0].body] else []) + CookieBodies(fs[1..])
  }

  /** The last identifier before the authenticator matched, the authenticator, and whether there was any field. */
  datatype Look = Look(uniqueOk: bool, auth: Option<Field>, sawAny: bool)

  function LookAt(fs: seq<Field>, uid: UniqueId, l: Look): Look
    decreases |fs|
  {
    if fs == [] then l
    else if fs[0].fieldType == NTS_AUTHENTICATOR then l.(auth := Some(fs[0]), sawAny := true)
    else if fs[0].fieldType == UNIQUE_IDENTIFIER then
      LookAt(fs[1..], uid, l.(uniqueOk := fs[0].body == uid, sawAny := true))
    else LookAt(fs[1..], uid, l.(sawAny := true))
  }

  function VerifiedBy(c: Cipher, packet: seq<byte>, s2c: Key, uid: UniqueId): Verified {
    if |packet| < HEADER_LEN then Failed(PacketTooShort)
    else
      var l := LookAt(Fields(packet), uid, Look(false, None, false));
      if !l.uniqueOk then Failed(UniqueIdMismatch)
      else if l.auth.None? then Failed(if l.sawAny then Nak else MissingAuthenticator)
      else
        match SplitBody(l.auth.value.body)
        case None => Failed(MalformedField)
        case Some((nonce, ciphertext)) =>
          if l.auth.value.offset > |packet| then Failed(MalformedField)
          else
            match c.open(s2c, [packet[..l.auth.value.offset], nonce], ciphertext)
            case None => Failed(BadTag)
            case Some(plaintext) => Verified(CookieBodies(FieldsFrom(plaintext, 0)))
  }

  /** Check, in this order: the identifier, the authenticator's presence and its tag; then recover the cookies. */
  method VerifyResponse(c: Cipher, packet: seq<byte>, s2c: Key, uid: UniqueId) returns (v: Verified)
    ensures v == VerifiedBy(c, packet, s2c, uid)
  {
    if |packet| < HEADER_LEN {
      return Failed(PacketTooShort);
    }
    var fs := ReadFields(packet);
    var l := Look(false, None, false);
    var i := 0;
    assert fs[0..] == fs;
    while i < |fs| && l.auth.None?
      invariant 0 <= i <= |fs|
      invariant LookAt(fs, uid, Look(false, None, false)) == if l.auth.None? then LookAt(fs[i..], uid, l) else l
    {
      assert fs[i..][1..] == fs[i + 1..];
      l := l.(sawAny := true);
      if fs[i].fieldType == NTS_AUTHENTICATOR {
        l := l.(auth := Some(fs[i]));
      } else if fs[i].fieldType == UNIQUE_IDENTIFIER {
        l := l.(uniqueOk := fs[i].body == uid);
      }
      i := i + 1;
    }
    if !l.uniqueOk {
      return Failed(UniqueIdMismatch);
    }
    if l.auth.None? {
      return Failed(if l.sawAny then Nak else MissingAuthenticator);
    }
    var parts := SplitBody(l.auth.value.body);
    if parts.None? || l.auth.value.offset > |packet| {
      return Failed(MalformedField);
    }
    var plain := c.open(s2c, [packet[..l.auth.value.offset], parts.value.0], parts.value.1);
    if plain.None? {
      return Failed(BadTag);
    }
    var cookies := ReadCookies(plain.value);
    return Verified(cookies);
  }

  /** Walk the decrypted payload for its cookies. */
  method ReadCookies(plaintext: seq<byte>) returns (cookies: seq<seq<byte>>)
    ensures cookies == CookieBodies(FieldsFrom(plaintext, 0))
  {
    cookies := [];
    var at := 0;
    var peeked := Peek(plaintext[0..]);
    while peeked.Some?
      invariant at <= |plaintext| && peeked == Peek(plaintext[at..])
      invariant cookies + CookieBodies(FieldsFrom(plaintext, at)) == CookieBodies(FieldsFrom(plaintext, 0))
      decreases |plaintext| - at
    {
      var (fieldType, total) := peeked.value;
      FieldsStep(plaintext, at, fieldType, total);
      ghost var rest := FieldsFrom(plaintext, at + total);
      assert ([Field(fieldType, plaintext[at + 4..at + total], at)] + rest)[1..] == rest;
      if fieldType == NTS_COOKIE {
        cookies := cookies + [plaintext[at + 4..at + total]];
      }
      at := at + total;
      peeked := Peek(plaintext[at..]);
    }
    FieldsEnd(plaintext, at);
  }

  // ----- the exchange -----

  lemma GatherStep(f: Field, rest: seq<Field>, g: Gathered)
    ensures Gather([f] + rest, g)
            == if f.fieldType == NTS_AUTHENTICATOR then g.(auth := Some(f)) else Gather(rest, Noted(g, f))
  {
    assert ([f] + rest)[1..] == rest;
  }

  lemma {:induction false} PlaceholdersFront(len: nat, n: nat)
    requires n > 0
    ensures Placeholders(len, n) == FieldBytes(NTS_COOKIE_PLACEHOLDER, Zeros(len)) + Placeholders(len, n - 1)
  {
    if n > 1 {
      PlaceholdersFront(len, n - 1);
    } else {
      assert Placeholders(len, 0) == [];
    }
  }

  lemma {:induction false} PlaceholdersLength(len: nat, n: nat)
    ensures |Placeholders(len, n)| == n * Total(len)
  {
    if n > 0 {
      PlaceholdersLength(len, n - 1);
      assert n * Total(len) == (n - 1) * Total(len) + Total(len);
    }
  }

  /** Reading on over the placeholders counts them and nothing else. */
  lemma {:induction false} GatherPlaceholders(before: seq<byte>, len: nat, n: nat, rest: seq<byte>, packet: seq<byte>,
                                              g: Gathered)
    requires Total(len) < WIDE && packet == before + Placeholders(len, n) + rest
    ensures |before + Placeholders(len, n)| <= |packet|
    ensures Gather(FieldsFrom(packet, |before|), g)
            == Gather(FieldsFrom(packet, |before + Placeholders(len, n)|), g.(placeholders := g.placeholders + n))
    decreases n
  {
    if n == 0 {
      assert before + Placeholders(len, 0) == before;
    } else {
      PlaceholdersFront(len, n);
      var f, more := FieldBytes(NTS_COOKIE_PLACEHOLDER, Zeros(len)), Placeholders(len, n - 1);
      assert packet == before + f + (more + rest);
      ReadsWritten(before, NTS_COOKIE_PLACEHOLDER, Zeros(len), more + rest, packet);
      var field := Field(NTS_COOKIE_PLACEHOLDER, Padded(Zeros(len)), |before|);
      GatherStep(field, FieldsFrom(packet, |before| + Total(len)), g);
      assert packet == (before + f) + more + rest;
      GatherPlaceholders(before + f, len, n - 1, rest, packet, Noted(g, field));
      assert (before + f) + more == before + Placeholders(len, n);
    }
  }

  /** One field further. */
  lemma GatherField(before: seq<byte>, fieldType: nat, body: seq<byte>, rest: seq<byte>, packet: seq<byte>, g: Gathered)
    requires fieldType < WIDE && Total(|body|) < WIDE && packet == before + FieldBytes(fieldType, body) + rest
    ensures |before + FieldBytes(fieldType, body)| <= |packet|
    ensures var field := Field(fieldType, Padded(body), |before|);
            Gather(FieldsFrom(packet, |before|), g)
            == if fieldType == NTS_AUTHENTICATOR then g.(auth := Some(field))
               else Gather(FieldsFrom(packet, |before + FieldBytes(fieldType, body)|), Noted(g, field))
  {
    ReadsWritten(before, fieldType, body, rest, packet);
    GatherStep(Field(fieldType, Padded(body), |before|), FieldsFrom(packet, |before| + Total(|body|)), g);
  }

  lemma AskingAssembles(header: Header, uid: UniqueId, cookie: seq<byte>, len: nat, extra: nat, auth: seq<byte>)
    returns (packet: seq<byte>)
    ensures packet == Asking(header, uid, cookie, len, extra) + auth
    ensures packet == header + FieldBytes(UNIQUE_IDENTIFIER, uid)
                      + (FieldBytes(NTS_COOKIE, cookie) + Placeholders(len, extra) + auth)
    ensures packet == (header + FieldBytes(UNIQUE_IDENTIFIER, uid)) + FieldBytes(NTS_COOKIE, cookie)
                      + (Placeholders(len, extra) + auth)
  {
    packet := Asking(header, uid, cookie, len, extra) + auth;
  }

  /** What the server gathers is what the client put in, whatever the length of the placeholders. */
  lemma AskingGathered(
      header: Header, uid: UniqueId, cookie: seq<byte>, len: nat, extra: nat, body: seq<byte>, packet: seq<byte>)
    requires |cookie| == COOKIE_LEN && Total(|body|) < WIDE && Total(len) < WIDE
    requires packet == Asking(header, uid, cookie, len, extra) + FieldBytes(NTS_AUTHENTICATOR, body)
    ensures Gather(Fields(packet), Gathered(None, None, 0, None))
            == Gathered(Some(cookie), Some(uid), extra,
                        Some(Field(NTS_AUTHENTICATOR, Padded(body), |Asking(header, uid, cookie, len, extra)|)))
  {
    hide Gather, Placeholders;
    var auth := FieldBytes(NTS_AUTHENTICATOR, body);
    var same := AskingAssembles(header, uid, cookie, len, extra, auth);
    var g0 := Gathered(None, None, 0, None);
    NoPadding(uid);
    NoPadding(cookie);
    GatherField(header, UNIQUE_IDENTIFIER, uid, FieldBytes(NTS_COOKIE, cookie) + Placeholders(len, extra) + auth,
                packet, g0);
    var g1 := g0.(uid := Some(uid));
    var b1 := header + FieldBytes(UNIQUE_IDENTIFIER, uid);
    GatherField(b1, NTS_COOKIE, cookie, Placeholders(len, extra) + auth, packet, g1);
    var g2 := g1.(cookie := Some(cookie));
    var b2 := b1 + FieldBytes(NTS_COOKIE, cookie);
    GatherPlaceholders(b2, len, extra, auth, packet, g2);
    var g3 := g2.(placeholders := extra);
    var b3 := b2 + Placeholders(len, extra);
    assert packet == b3 + auth + [];
    GatherField(b3, NTS_AUTHENTICATOR, body, [], packet, g3);
  }
}
