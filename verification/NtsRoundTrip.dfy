/** A protected exchange from end to end. */
module NtsRoundTrip {
  import opened Wrappers
  import opened Bytes
  import opened Aead
  import opened ExtensionFields
  import opened Cookies
  import opened NtsExchange

  // ----- the cookies in a reply -----

  /** The cookies minted for some nonces, in order. */
  function CookieList(c: Cipher, m: MasterKey, keys: NtsKeys, nonces: seq<Nonce>): (cs: seq<seq<byte>>)
    ensures |cs| == |nonces| && forall i | 0 <= i < |nonces| :: cs[i] == CookieUnder(c, m, keys, nonces[i])
  {
    seq(|nonces|, i requires 0 <= i < |nonces| => CookieUnder(c, m, keys, nonces[i]))
  }

  lemma {:induction false} CookieFieldsLength(c: Cipher, m: MasterKey, keys: NtsKeys, nonces: seq<Nonce>)
    requires Lawful(c) && m.id < WIDE32
    ensures |CookieFields(c, m, keys, nonces)| == 104 * |nonces|
  {
    if nonces != [] {
      CookieFieldsLength(c, m, keys, nonces[..|nonces| - 1]);
      CookieShape(c, m, keys, nonces[|nonces| - 1]);
    }
  }

  /** The fields of the first `k` cookies, the next one, and the rest. */
  lemma {:induction false} CookieFieldsSplit(c: Cipher, m: MasterKey, keys: NtsKeys, nonces: seq<Nonce>, k: nat)
    returns (rest: seq<byte>)
    requires k < |nonces|
    ensures CookieFields(c, m, keys, nonces)
            == CookieFields(c, m, keys, nonces[..k]) + FieldBytes(NTS_COOKIE, CookieUnder(c, m, keys, nonces[k])) + rest
    decreases |nonces|
  {
    var n := |nonces| - 1;
    if k == n {
      rest := [];
    } else {
      var shorter := CookieFieldsSplit(c, m, keys, nonces[..n], k);
      assert nonces[..n][..k] == nonces[..k];
      rest := shorter + FieldBytes(NTS_COOKIE, CookieUnder(c, m, keys, nonces[n]));
    }
  }

  lemma CookieBodiesStep(f: Field, rest: seq<Field>)
    ensures CookieBodies([f] + rest) == (if f.fieldType == NTS_COOKIE then [f.body] else []) + CookieBodies(rest)
  {
    assert ([f] + rest)[1..] == rest;
  }

  lemma {:induction false} CookiesRead(c: Cipher, m: MasterKey, keys: NtsKeys, nonces: seq<Nonce>, k: nat)
    requires Lawful(c) && m.id < WIDE32 && k <= |nonces|
    ensures |CookieFields(c, m, keys, nonces)| == 104 * |nonces|
    ensures CookieBodies(FieldsFrom(CookieFields(c, m, keys, nonces), 104 * k)) == CookieList(c, m, keys, nonces)[k..]
    decreases |nonces| - k
  {
    var all := CookieFields(c, m, keys, nonces);
    CookieFieldsLength(c, m, keys, nonces);
    if k == |nonces| {
      PeekMeans(all[104 * k..]);
      FieldsEnd(all, 104 * k);
    } else {
      var before, cookie := CookieFields(c, m, keys, nonces[..k]), CookieUnder(c, m, keys, nonces[k]);
      var rest := CookieFieldsSplit(c, m, keys, nonces, k);
      CookieFieldsLength(c, m, keys, nonces[..k]);
      CookieShape(c, m, keys, nonces[k]);
      NoPadding(cookie);
      ReadsWritten(before, NTS_COOKIE, cookie, rest, all);
      CookieBodiesStep(Field(NTS_COOKIE, cookie, 104 * k), FieldsFrom(all, 104 * (k + 1)));
      CookiesRead(c, m, keys, nonces, k + 1);
      var list := CookieList(c, m, keys, nonces);
      assert list[k..] == [list[k]] + list[k + 1..];
    }
  }

  // ----- sealing and opening -----

  /** An authenticator over `before` is found to hold what was sealed into it. */
  lemma SealedBody(c: Cipher, key: Key, before: seq<byte>, nonce: Nonce, plaintext: seq<byte>)
    returns (body: seq<byte>, ciphertext: seq<byte>)
    requires Lawful(c) && |plaintext| % 4 == 0 && |plaintext| <= 1024
    ensures ciphertext == c.seal(key, [before, nonce], plaintext) && body == AuthenticatorBody(nonce, ciphertext)
    ensures |body| == 36 + |plaintext| && Padded(body) == body && Total(|body|) == 40 + |plaintext| < WIDE
    ensures Sealed(c, key, before, nonce, plaintext) == before + FieldBytes(NTS_AUTHENTICATOR, body)
    ensures SplitBody(body) == Some((nonce, ciphertext))
    ensures c.open(key, [before, nonce], ciphertext) == Some(plaintext)
  {
    Opens(c, key, [before, nonce], plaintext);
    ciphertext := c.seal(key, [before, nonce], plaintext);
    body := AuthenticatorBody(nonce, ciphertext);
    assert RoundUp4(16) == 16 && RoundUp4(|ciphertext|) == |ciphertext|;
    NoPadding(body);
    SplitWritten(nonce, ciphertext);
  }

  /** A request is 124 octets and 104 for its cookie and each placeholder. */
  lemma RequestLength(c: Cipher, header: Header, uid: UniqueId, cookie: seq<byte>, extra: nat, c2s: Key, nonce: Nonce)
    requires Lawful(c) && |cookie| == COOKIE_LEN
    ensures |Request(c, header, uid, cookie, extra, c2s, nonce)| == 124 + 104 * (1 + extra)
  {
    var body, ciphertext := SealedBody(c, c2s, Unsealed(header, uid, cookie, extra), nonce, []);
    PlaceholdersLength(|cookie|, extra);
    assert Total(COOKIE_LEN) == 104 && Total(UNIQUE_ID_LEN) == 36;
  }

  /** The server answers a request protected with a cookie it can redeem by a sealed reply with fresh cookies. */
  lemma ServerAccepts(c: Cipher, ring: seq<MasterKey>, header: Header, uid: UniqueId, cookie: seq<byte>, extra: nat,
                      keys: NtsKeys, nonce: Nonce, replyHeader: Header, nak: Header, nonces: seq<Nonce>,
                      replyNonce: Nonce)
    requires Lawful(c) && |cookie| == COOKIE_LEN && |nonces| == MAX_REPLY_COOKIES && ring != []
    requires Redeem(c, ring, cookie) == Redeemed(keys)
    ensures AnswerTo(c, ring, Request(c, header, uid, cookie, extra, keys.c2s, nonce), replyHeader, nak, nonces,
                     replyNonce)
            == Extended(Reply(c, replyHeader, uid, keys.s2c, replyNonce,
                              CookieFields(c, ring[|ring| - 1], keys, nonces[..Want(extra)])))
  {
    var before := Unsealed(header, uid, cookie, extra);
    var body, ciphertext := SealedBody(c, keys.c2s, before, nonce, []);
    var request := Request(c, header, uid, cookie, extra, keys.c2s, nonce);
    AskingGathered(header, uid, cookie, |cookie|, extra, body, request);
    assert request[..|before|] == before;
  }

  /** And one protected with a cookie it cannot redeem by a refusal. */
  lemma ServerRefuses(c: Cipher, ring: seq<MasterKey>, header: Header, uid: UniqueId, cookie: seq<byte>, extra: nat,
                      keys: NtsKeys, nonce: Nonce, replyHeader: Header, nak: Header, nonces: seq<Nonce>,
                      replyNonce: Nonce)
    requires Lawful(c) && |cookie| == COOKIE_LEN && |nonces| == MAX_REPLY_COOKIES
    requires Redeem(c, ring, cookie).Rejected?
    ensures AnswerTo(c, ring, Request(c, header, uid, cookie, extra, keys.c2s, nonce), replyHeader, nak, nonces,
                     replyNonce)
            == NakReply(nak + FieldBytes(UNIQUE_IDENTIFIER, uid))
  {
    var before := Unsealed(header, uid, cookie, extra);
    var body, ciphertext := SealedBody(c, keys.c2s, before, nonce, []);
    AskingGathered(header, uid, cookie, |cookie|, extra, body, Request(c, header, uid, cookie, extra, keys.c2s, nonce));
  }

  lemma LookStep(f: Field, rest: seq<Field>, uid: UniqueId, l: Look)
    ensures LookAt([f] + rest, uid, l)
            == if f.fieldType == NTS_AUTHENTICATOR then l.(auth := Some(f), sawAny := true)
               else if f.fieldType == UNIQUE_IDENTIFIER then
                 LookAt(rest, uid, l.(uniqueOk := f.body == uid, sawAny := true))
               else LookAt(rest, uid, l.(sawAny := true))
  {
    assert ([f] + rest)[1..] == rest;
  }

  /** The client finds its identifier and the authenticator in a reply. */
  lemma ReplyLooked(header: Header, uid: UniqueId, body: seq<byte>, packet: seq<byte>)
    requires Total(|body|) < WIDE
             && packet == header + FieldBytes(UNIQUE_IDENTIFIER, uid) + FieldBytes(NTS_AUTHENTICATOR, body)
    ensures LookAt(Fields(packet), uid, Look(false, None, false))
            == Look(true, Some(Field(NTS_AUTHENTICATOR, Padded(body), 84)), true)
  {
    var l0 := Look(false, None, false);
    var b1 := header + FieldBytes(UNIQUE_IDENTIFIER, uid);
    NoPadding(uid);
    ReadsWritten(header, UNIQUE_IDENTIFIER, uid, FieldBytes(NTS_AUTHENTICATOR, body), packet);
    LookStep(Field(UNIQUE_IDENTIFIER, uid, 48), FieldsFrom(packet, 84), uid, l0);
    assert packet == b1 + FieldBytes(NTS_AUTHENTICATOR, body) + [];
    ReadsWritten(b1, NTS_AUTHENTICATOR, body, [], packet);
    LookStep(Field(NTS_AUTHENTICATOR, Padded(body), 84), FieldsFrom(packet, 84 + Total(|body|)), uid,
             Look(true, None, true));
  }

  /** A refusal carries nothing the client could verify. */
  lemma NakIsRefused(c: Cipher, nak: Header, s2c: Key, uid: UniqueId)
    ensures VerifiedBy(c, nak + FieldBytes(UNIQUE_IDENTIFIER, uid), s2c, uid) == Failed(Nak)
  {
    var packet := nak + FieldBytes(UNIQUE_IDENTIFIER, uid);
    assert packet == nak + FieldBytes(UNIQUE_IDENTIFIER, uid) + [];
    NoPadding(uid);
    ReadsWritten(nak, UNIQUE_IDENTIFIER, uid, [], packet);
    PeekMeans(packet[84..]);
    FieldsEnd(packet, 84);
    LookStep(Field(UNIQUE_IDENTIFIER, uid, 48), [], uid, Look(false, None, false));
  }

  lemma VerifiesAs(c: Cipher, packet: seq<byte>, s2c: Key, uid: UniqueId, before: seq<byte>, body: seq<byte>,
                   nonce: seq<byte>, ciphertext: seq<byte>, plaintext: seq<byte>)
    requires |packet| >= 84 && packet[..84] == before
    requires LookAt(Fields(packet), uid, Look(false, None, false))
             == Look(true, Some(Field(NTS_AUTHENTICATOR, body, 84)), true)
    requires SplitBody(body) == Some((nonce, ciphertext)) && c.open(s2c, [before, nonce], ciphertext) == Some(plaintext)
    ensures VerifiedBy(c, packet, s2c, uid) == Verified(CookieBodies(FieldsFrom(plaintext, 0)))
  {
  }

  lemma ReplyVerifies(c: Cipher, s2c: Key, header: Header, uid: UniqueId, nonce: Nonce, plaintext: seq<byte>)
    requires Lawful(c) && |plaintext| % 4 == 0 && |plaintext| <= 1024
    ensures |Reply(c, header, uid, s2c, nonce, plaintext)| == 124 + |plaintext|
    ensures VerifiedBy(c, Reply(c, header, uid, s2c, nonce, plaintext), s2c, uid)
            == Verified(CookieBodies(FieldsFrom(plaintext, 0)))
  {
    var before := header + FieldBytes(UNIQUE_IDENTIFIER, uid);
    assert Total(UNIQUE_ID_LEN) == 36;
    var body, ciphertext := SealedBody(c, s2c, before, nonce, plaintext);
    var reply := before + FieldBytes(NTS_AUTHENTICATOR, body);
    ReplyLooked(header, uid, body, reply);
    assert reply[..84] == before;
    VerifiesAs(c, reply, s2c, uid, before, body, nonce, ciphertext, plaintext);
  }

  /** The client accepts the reply and recovers exactly the cookies minted for it. */
  lemma ClientAccepts(c: Cipher, m: MasterKey, keys: NtsKeys, header: Header, uid: UniqueId, nonces: seq<Nonce>,
                      nonce: Nonce)
    requires Lawful(c) && m.id < WIDE32 && |nonces| <= MAX_REPLY_COOKIES
    ensures var reply := Reply(c, header, uid, keys.s2c, nonce, CookieFields(c, m, keys, nonces));
            && |reply| == 124 + 104 * |nonces|
            && VerifiedBy(c, reply, keys.s2c, uid) == Verified(CookieList(c, m, keys, nonces))
  {
    hide VerifiedBy, Reply, CookieBodies, FieldsFrom, CookieFields, CookieUnder;
    CookieFieldsLength(c, m, keys, nonces);
    ReplyVerifies(c, keys.s2c, header, uid, nonce, CookieFields(c, m, keys, nonces));
    CookiesRead(c, m, keys, nonces, 0);
    assert CookieList(c, m, keys, nonces)[0..] == CookieList(c, m, keys, nonces);
  }

  /**
   A request protected with a cookie minted under a key the ring still holds, uniquely
   numbered, is answered; the reply is no longer than the request; the client accepts
   it and recovers one fresh cookie for the one spent and one per placeholder, eight at
   most; and each of them redeems to the same session keys.
   */
  lemma ExchangeSucceeds(c: Cipher, ring: seq<MasterKey>, i: nat, keys: NtsKeys, cookieNonce: Nonce,
                         header: Header, uid: UniqueId, extra: nat, nonce: Nonce,
                         replyHeader: Header, nak: Header, nonces: seq<Nonce>, replyNonce: Nonce)
    returns (request: seq<byte>, reply: seq<byte>, cookies: seq<seq<byte>>)
    requires Lawful(c) && Numbered(ring) && i < |ring| && |nonces| == MAX_REPLY_COOKIES
    requires forall k | 0 <= k < |ring| :: ring[k].id < WIDE32
    ensures request == Request(c, header, uid, CookieUnder(c, ring[i], keys, cookieNonce), extra, keys.c2s, nonce)
    ensures AnswerTo(c, ring, request, replyHeader, nak, nonces, replyNonce) == Extended(reply)
    ensures HEADER_LEN <= |reply| <= |request| && reply[..HEADER_LEN] == replyHeader
    ensures VerifiedBy(c, reply, keys.s2c, uid) == Verified(cookies)
    ensures cookies == CookieList(c, ring[|ring| - 1], keys, nonces[..Want(extra)])
    ensures forall k | 0 <= k < |cookies| :: Redeem(c, ring, cookies[k]) == Redeemed(keys)
  {
    hide Request, AnswerTo, VerifiedBy, Redeem, CookieUnder;
    var cookie := CookieUnder(c, ring[i], keys, cookieNonce);
    CookieShape(c, ring[i], keys, cookieNonce);
    RetainedRedeems(c, ring, i, keys, cookieNonce);
    RequestLength(c, header, uid, cookie, extra, keys.c2s, nonce);
    request := Request(c, header, uid, cookie, extra, keys.c2s, nonce);
    ServerAccepts(c, ring, header, uid, cookie, extra, keys, nonce, replyHeader, nak, nonces, replyNonce);
    var current, used := ring[|ring| - 1], nonces[..Want(extra)];
    ClientAccepts(c, current, keys, replyHeader, uid, used, replyNonce);
    reply := Reply(c, replyHeader, uid, keys.s2c, replyNonce, CookieFields(c, current, keys, used));
    cookies := CookieList(c, current, keys, used);
    AllRedeem(c, ring, keys, used, cookies);
  }

  lemma AllRedeem(c: Cipher, ring: seq<MasterKey>, keys: NtsKeys, nonces: seq<Nonce>, cookies: seq<seq<byte>>)
    requires Lawful(c) && Numbered(ring) && ring != [] && ring[|ring| - 1].id < WIDE32
    requires cookies == CookieList(c, ring[|ring| - 1], keys, nonces)
    ensures forall k | 0 <= k < |cookies| :: Redeem(c, ring, cookies[k]) == Redeemed(keys)
  {
    forall k | 0 <= k < |cookies|
      ensures Redeem(c, ring, cookies[k]) == Redeemed(keys)
    {
      RetainedRedeems(c, ring, |ring| - 1, keys, nonces[k]);
    }
  }

  // ----- how long an answer is -----

  predicate Shaped(f: Field) {
    (4 + |f.body|) % 4 == 0 && 4 + |f.body| >= MIN_EF_LEN
  }

  lemma {:induction false} FieldsShaped(packet: seq<byte>, at: nat)
    requires at <= |packet|
    ensures forall f | f in FieldsFrom(packet, at) :: Shaped(f) && at <= f.offset && f.offset + 4 + |f.body| <= |packet|
    decreases |packet| - at
  {
    PeekMeans(packet[at..]);
    var peeked := Peek(packet[at..]);
    if peeked.Some? {
      FieldsStep(packet, at, peeked.value.0, peeked.value.1);
      FieldsShaped(packet, at + peeked.value.1);
    } else {
      FieldsEnd(packet, at);
    }
  }

  /** The identifier gathered is the body of some field. */
  lemma {:induction false} IdentifierIsThere(fs: seq<Field>, g: Gathered)
    ensures var u := Gather(fs, g).uid; u != g.uid ==> u.Some? && exists f :: f in fs && f.body == u.value
    decreases |fs|
  {
    if fs != [] && fs[0].fieldType != NTS_AUTHENTICATOR {
      IdentifierIsThere(fs[1..], Noted(g, fs[0]));
      assert fs[0] in fs && forall f | f in fs[1..] :: f in fs;
    }
  }

  lemma IdentifierFits(request: seq<byte>)
    ensures var u := Gather(Fields(request), Gathered(None, None, 0, None)).uid;
            u.Some? ==> Total(|u.value|) == 4 + |u.value| && HEADER_LEN + Total(|u.value|) <= |request|
  {
    FieldsShaped(request, Start(request));
    IdentifierIsThere(Fields(request), Gathered(None, None, 0, None));
  }

  /** The length of a sealed reply to a request, by what the server picks out of it. */
  function ReplyLength(uid: seq<byte>, placeholders: nat): nat {
    88 + Total(|Cut(uid)|) + 104 * Want(placeholders)
  }

  /**
   A refusal is never longer than its request. A sealed reply is longer exactly when its
   placeholders are too short for the cookies they ask for: the server counts them and
   does not measure them.
   */
  lemma AnswerLength(c: Cipher, ring: seq<MasterKey>, request: seq<byte>, header: Header, nak: Header,
                     nonces: seq<Nonce>, nonce: Nonce)
    requires Lawful(c) && |nonces| == MAX_REPLY_COOKIES && forall m | m in ring :: m.id < WIDE32
    ensures var g := Gather(Fields(request), Gathered(None, None, 0, None));
            var a := AnswerTo(c, ring, request, header, nak, nonces, nonce);
            && (a.NakReply? ==> |a.bytes| <= |request|)
            && (a.Extended? ==> g.uid.Some? && |a.bytes| == ReplyLength(g.uid.value, g.placeholders))
  {
    hide Gather, Redeem, CookieFields, Authentic;
    var g := Gather(Fields(request), Gathered(None, None, 0, None));
    var a := AnswerTo(c, ring, request, header, nak, nonces, nonce);
    IdentifierFits(request);
    if a.Extended? {
      var m := ring[|ring| - 1];
      var keys := Redeem(c, ring, g.cookie.value).keys;
      CookieFieldsLength(c, m, keys, nonces[..Want(g.placeholders)]);
      var body, ciphertext :=
        SealedBody(c, keys.s2c, header + FieldBytes(UNIQUE_IDENTIFIER, Cut(g.uid.value)), nonce,
                   CookieFields(c, m, keys, nonces[..Want(g.placeholders)]));
    }
  }

  /** Seven placeholders of sixteen octets each: 340 octets asked, 956 answered. */
  lemma ShortPlaceholdersOutgrow(c: Cipher, m: MasterKey, keys: NtsKeys, cookieNonce: Nonce, header: Header,
                                 uid: UniqueId, nonce: Nonce, replyHeader: Header, nak: Header, nonces: seq<Nonce>,
                                 replyNonce: Nonce)
    returns (request: seq<byte>, reply: seq<byte>)
    requires Lawful(c) && m.id < WIDE32 && |nonces| == MAX_REPLY_COOKIES
    ensures request == Sealed(c, keys.c2s, Asking(header, uid, CookieUnder(c, m, keys, cookieNonce), 12, 7), nonce, [])
    ensures AnswerTo(c, [m], request, replyHeader, nak, nonces, replyNonce) == Extended(reply)
    ensures |request| == 340 && |reply| == 956
  {
    var cookie := CookieUnder(c, m, keys, cookieNonce);
    CookieShape(c, m, keys, cookieNonce);
    RetainedRedeems(c, [m], 0, keys, cookieNonce);
    var before := Asking(header, uid, cookie, 12, 7);
    var body, ciphertext := SealedBody(c, keys.c2s, before, nonce, []);
    request := Sealed(c, keys.c2s, before, nonce, []);
    AskingGathered(header, uid, cookie, 12, 7, body, request);
    assert request[..|before|] == before;
    PlaceholdersLength(12, 7);
    assert Total(COOKIE_LEN) == 104 && Total(UNIQUE_ID_LEN) == 36 && Total(12) == 16;
    var a := AnswerTo(c, [m], request, replyHeader, nak, nonces, replyNonce);
    AnswerLength(c, [m], request, replyHeader, nak, nonces, replyNonce);
    reply := a.bytes;
  }
}
