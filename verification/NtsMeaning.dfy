/** What the two sides of the protected exchange accept and refuse, told on the fields and octets of a packet. */
module NtsMeaning {
  import opened Wrappers
  import opened Bytes
  import opened Aead
  import opened ExtensionFields
  import opened Cookies
  import opened NtsExchange
  import opened NtsRoundTrip

  // ----- fields -----

  /** The first authenticator stands at `i`. */
  ghost predicate FirstAuthenticator(fs: seq<Field>, i: nat) {
    && i < |fs| && fs[i].fieldType == NTS_AUTHENTICATOR
    && forall j | 0 <= j < i :: fs[j].fieldType != NTS_AUTHENTICATOR
  }

  predicate Unauthenticated(fs: seq<Field>) {
    forall f | f in fs :: f.fieldType != NTS_AUTHENTICATOR
  }

  lemma {:induction false} FirstOrNone(fs: seq<Field>) returns (i: nat)
    ensures Unauthenticated(fs) || FirstAuthenticator(fs, i)
  {
    i := 0;
    while i < |fs| && fs[i].fieldType != NTS_AUTHENTICATOR
      invariant i <= |fs| && forall j | 0 <= j < i :: fs[j].fieldType != NTS_AUTHENTICATOR
    {
      i := i + 1;
    }
  }

  /** The body of the last field of that type. */
  function LastBody(fs: seq<Field>, fieldType: nat): Option<seq<byte>> {
    if fs == [] then None
    else if fs[|fs| - 1].fieldType == fieldType then Some(fs[|fs| - 1].body)
    else LastBody(fs[..|fs| - 1], fieldType)
  }

  function CountOf(fs: seq<Field>, fieldType: nat): nat {
    if fs == [] then 0
    else CountOf(fs[..|fs| - 1], fieldType) + if fs[|fs| - 1].fieldType == fieldType then 1 else 0
  }

  function OrElse<T>(a: Option<T>, b: Option<T>): Option<T> {
    if a.Some? then a else b
  }

  /** The same, by the first field. */
  lemma {:induction false} LastBodyFront(f: Field, rest: seq<Field>, fieldType: nat)
    ensures LastBody([f] + rest, fieldType)
            == OrElse(LastBody(rest, fieldType), if f.fieldType == fieldType then Some(f.body) else None)
    ensures CountOf([f] + rest, fieldType) == CountOf(rest, fieldType) + if f.fieldType == fieldType then 1 else 0
    decreases |rest|
  {
    var s := [f] + rest;
    if rest == [] {
      assert s[..0] == [];
    } else {
      assert s[..|s| - 1] == [f] + rest[..|rest| - 1];
      LastBodyFront(f, rest[..|rest| - 1], fieldType);
    }
  }

  /** What precedes the first authenticator, or everything. */
  function Preceding(fs: seq<Field>): (p: seq<Field>)
    decreases |fs|
  {
    if fs == [] || fs[0].fieldType == NTS_AUTHENTICATOR then [] else [fs[0]] + Preceding(fs[1..])
  }

  lemma {:induction false} PrecedingIs(fs: seq<Field>, i: nat)
    requires FirstAuthenticator(fs, i) || (Unauthenticated(fs) && i == |fs|)
    ensures Preceding(fs) == fs[..i]
    decreases |fs|
  {
    if i > 0 {
      if i < |fs| {
        assert FirstAuthenticator(fs[1..], i - 1) by {
          assert forall j | 0 <= j < i - 1 :: fs[1..][j] == fs[j + 1];
        }
      }
      PrecedingIs(fs[1..], i - 1);
      assert fs[..i] == [fs[0]] + fs[1..][..i - 1];
    }
  }

  /** The server takes the last cookie and identifier, and counts the placeholders, before the first authenticator. */
  lemma {:induction false} GatherMeans(fs: seq<Field>, g: Gathered)
    ensures var p, r := Preceding(fs), Gather(fs, g);
            && r.cookie == OrElse(LastBody(p, NTS_COOKIE), g.cookie)
            && r.uid == OrElse(LastBody(p, UNIQUE_IDENTIFIER), g.uid)
            && r.placeholders == g.placeholders + CountOf(p, NTS_COOKIE_PLACEHOLDER)
            && (Unauthenticated(fs) ==> r.auth == g.auth)
            && (!Unauthenticated(fs) ==> |p| < |fs| && r.auth == Some(fs[|p|]) && FirstAuthenticator(fs, |p|))
    decreases |fs|
  {
    if fs != [] && fs[0].fieldType != NTS_AUTHENTICATOR {
      var f, rest := fs[0], fs[1..];
      assert fs == [f] + rest;
      GatherMeans(rest, Noted(g, f));
      LastBodyFront(f, Preceding(rest), NTS_COOKIE);
      LastBodyFront(f, Preceding(rest), UNIQUE_IDENTIFIER);
      LastBodyFront(f, Preceding(rest), NTS_COOKIE_PLACEHOLDER);
      assert Unauthenticated(fs) <==> Unauthenticated(rest);
    }
  }

  /** The client looks for the last identifier before the first authenticator. */
  lemma {:induction false} LookMeans(fs: seq<Field>, uid: UniqueId, l: Look)
    requires l.auth.None?
    ensures var p, r := Preceding(fs), LookAt(fs, uid, l);
            && (r.uniqueOk <==>
                if LastBody(p, UNIQUE_IDENTIFIER).None? then l.uniqueOk
                else LastBody(p, UNIQUE_IDENTIFIER) == Some(uid))
            && (r.sawAny <==> l.sawAny || fs != [])
            && (Unauthenticated(fs) ==> r.auth == None)
            && (!Unauthenticated(fs) ==> |p| < |fs| && r.auth == Some(fs[|p|]) && FirstAuthenticator(fs, |p|))
    decreases |fs|
  {
    if fs != [] && fs[0].fieldType != NTS_AUTHENTICATOR {
      var f, rest := fs[0], fs[1..];
      assert fs == [f] + rest;
      var l' := if f.fieldType == UNIQUE_IDENTIFIER
                then l.(uniqueOk := f.body == uid, sawAny := true)
                else l.(sawAny := true);
      LookMeans(rest, uid, l');
      LastBodyFront(f, Preceding(rest), UNIQUE_IDENTIFIER);
      assert Unauthenticated(fs) <==> Unauthenticated(rest);
    }
  }

  // ----- the authenticator -----

  /** Where the ciphertext begins in a body whose nonce has `n` octets: on the next word. */
  function CiphertextAt(n: nat): nat {
    4 + n + (4 - n % 4) % 4
  }

  /** Sixteen bits, the high octet first. */
  function Wide(high: byte, low: byte): nat {
    high as int * 256 + low as int
  }

  /** The layout of an authenticator's body: two lengths, a nonce that is not empty, and a ciphertext that fits. */
  predicate LaidOut(body: seq<byte>) {
    && |body| >= 4 && Wide(body[0], body[1]) > 0
    && CiphertextAt(Wide(body[0], body[1])) + Wide(body[2], body[3]) <= |body|
  }

  /** What the body opens to under a key, over what precedes it. */
  function OpenedTo(c: Cipher, key: Key, before: seq<byte>, body: seq<byte>): Option<seq<byte>>
    requires LaidOut(body)
  {
    var n, m := Wide(body[0], body[1]), Wide(body[2], body[3]);
    c.open(key, [before, body[4..4 + n]], body[CiphertextAt(n)..CiphertextAt(n) + m])
  }

  predicate OpensOver(c: Cipher, key: Key, before: seq<byte>, body: seq<byte>) {
    LaidOut(body) && OpenedTo(c, key, before, body).Some?
  }

  lemma RoundsUp(n: nat)
    ensures 4 + RoundUp4(n) == CiphertextAt(n)
  {
  }

  lemma SplitMeans(c: Cipher, key: Key, before: seq<byte>, body: seq<byte>)
    ensures SplitBody(body).Some? <==> LaidOut(body)
    ensures LaidOut(body) ==>
              c.open(key, [before, SplitBody(body).value.0], SplitBody(body).value.1) == OpenedTo(c, key, before, body)
  {
    if |body| >= 4 {
      assert body[..2] == [body[0], body[1]] && body[2..4] == [body[2], body[3]];
      TwoOctets(body[..2]);
      TwoOctets(body[2..4]);
      RoundsUp(Wide(body[0], body[1]));
    }
  }

  /**
   The octets of a field: sixteen bits of type, sixteen of its whole length, and a body. One
   whose length is below sixteen, not of whole words, or more than there is, is none.
   */
  lemma PeekOctets(rest: seq<byte>)
    ensures Peek(rest).Some?
            <==> |rest| >= 4 && 16 <= Wide(rest[2], rest[3]) <= |rest| && Wide(rest[2], rest[3]) % 4 == 0
    ensures Peek(rest).Some? ==> Peek(rest).value == (Wide(rest[0], rest[1]), Wide(rest[2], rest[3]))
  {
    PeekMeans(rest);
    if |rest| >= 4 {
      TwoOctets(rest[..2]);
      TwoOctets(rest[2..4]);
    }
  }

  lemma FieldInside(packet: seq<byte>, i: nat)
    requires i < |Fields(packet)|
    ensures Fields(packet)[i].offset <= |packet|
  {
    FieldsPartition(packet, Start(packet));
    assert Fields(packet)[i] in Fields(packet);
  }

  // ----- the server -----

  /**
   Every answer to an admitted request: plain time without an authenticator; nothing
   without a cookie and an identifier before it; a refusal where the cookie does not
   redeem; and a sealed reply if and only if what is laid out in the first authenticator
   opens, under the key in the cookie, over all the octets before it, and nothing otherwise.
   */
  lemma AnswerMeans(c: Cipher, ring: seq<MasterKey>, request: seq<byte>, header: Header, nak: Header,
                    nonces: seq<Nonce>, nonce: Nonce)
    requires |nonces| == MAX_REPLY_COOKIES
    ensures var a, fs := AnswerTo(c, ring, request, header, nak, nonces, nonce), Fields(request);
            && (a.Plain? <==> Unauthenticated(fs))
            && forall i: nat | FirstAuthenticator(fs, i) ::
                 var cookie, uid := LastBody(fs[..i], NTS_COOKIE), LastBody(fs[..i], UNIQUE_IDENTIFIER);
                 if cookie.None? || uid.None? then a == Silent
                 else
                   match Redeem(c, ring, cookie.value)
                   case Rejected(_) => a == NakReply(nak + FieldBytes(UNIQUE_IDENTIFIER, uid.value))
                   case Redeemed(keys) =>
                     if ring != [] && fs[i].offset <= |request|
                        && OpensOver(c, keys.c2s, request[..fs[i].offset], fs[i].body)
                     then
                       var want := Want(CountOf(fs[..i], NTS_COOKIE_PLACEHOLDER));
                       var cookies := CookieFields(c, ring[|ring| - 1], keys, nonces[..want]);
                       a == Extended(Reply(c, header, uid.value, keys.s2c, nonce, cookies))
                     else a == Silent
  {
    hide Redeem, CookieFields, Reply, Gather, LastBody, CountOf, OpensOver;
    var fs := Fields(request);
    GatherMeans(fs, Gathered(None, None, 0, None));
    forall i: nat | FirstAuthenticator(fs, i)
      ensures |Preceding(fs)| == i && Preceding(fs) == fs[..i]
      ensures fs[i].offset <= |request|
    {
      PrecedingIs(fs, i);
      FieldInside(request, i);
    }
    var g := Gather(fs, Gathered(None, None, 0, None));
    if g.auth.Some? && g.cookie.Some? && Redeem(c, ring, g.cookie.value).Redeemed? {
      AuthenticMeans(c, request, g.auth.value, Redeem(c, ring, g.cookie.value).keys.c2s);
    }
  }

  lemma AuthenticMeans(c: Cipher, request: seq<byte>, auth: Field, key: Key)
    ensures Authentic(c, request, auth, key)
            <==> auth.offset <= |request| && OpensOver(c, key, request[..auth.offset], auth.body)
  {
    if auth.offset <= |request| {
      SplitMeans(c, key, request[..auth.offset], auth.body);
    }
  }

  // ----- the client -----

  /**
   A reply is accepted if and only if the last identifier before its first authenticator is
   that of the request in flight and what is laid out there opens over all the octets
   before it; another identifier is told first of all, and a ciphertext that does not open
   last of all.
   */
  lemma VerifiedMeans(c: Cipher, packet: seq<byte>, s2c: Key, uid: UniqueId)
    ensures var v, fs := VerifiedBy(c, packet, s2c, uid), Fields(packet);
            if |packet| < HEADER_LEN then v == Failed(PacketTooShort)
            else if LastBody(Preceding(fs), UNIQUE_IDENTIFIER) != Some(uid) then v == Failed(UniqueIdMismatch)
            else if Unauthenticated(fs) then v == Failed(Nak)
            else
              forall i: nat | FirstAuthenticator(fs, i) ::
                && Preceding(fs) == fs[..i] && fs[i].offset <= |packet|
                && if !LaidOut(fs[i].body) then v == Failed(MalformedField)
                   else
                     match OpenedTo(c, s2c, packet[..fs[i].offset], fs[i].body)
                     case None => v == Failed(BadTag)
                     case Some(plaintext) => v == Verified(CookieBodies(FieldsFrom(plaintext, 0)))
  {
    hide LastBody, LookAt, LaidOut, OpenedTo, CookieBodies;
    var fs := Fields(packet);
    LookMeans(fs, uid, Look(false, None, false));
    forall i: nat | FirstAuthenticator(fs, i)
      ensures |Preceding(fs)| == i && Preceding(fs) == fs[..i]
      ensures fs[i].offset <= |packet|
    {
      PrecedingIs(fs, i);
      FieldInside(packet, i);
      SplitMeans(c, s2c, packet[..fs[i].offset], fs[i].body);
    }
    SomethingPrecedes(fs, uid);
    var l := LookAt(fs, uid, Look(false, None, false));
    if l.auth.Some? && l.auth.value.offset <= |packet| {
      SplitMeans(c, s2c, packet[..l.auth.value.offset], l.auth.value.body);
    }
  }

  lemma SomethingPrecedes(fs: seq<Field>, uid: UniqueId)
    ensures LastBody(Preceding(fs), UNIQUE_IDENTIFIER) == Some(uid) ==> fs != []
  {
  }

  /** The reply to another request, however authentic, is not taken for the reply to this one. */
  lemma LateReplyIsRefused(c: Cipher, header: Header, asked: UniqueId, s2c: Key, nonce: Nonce, plaintext: seq<byte>,
                           pending: UniqueId)
    requires Lawful(c) && |plaintext| % 4 == 0 && |plaintext| <= 1024 && asked != pending
    ensures VerifiedBy(c, Reply(c, header, asked, s2c, nonce, plaintext), s2c, pending) == Failed(UniqueIdMismatch)
  {
    var before := header + FieldBytes(UNIQUE_IDENTIFIER, asked);
    var body, ciphertext := SealedBody(c, s2c, before, nonce, plaintext);
    var reply := before + FieldBytes(NTS_AUTHENTICATOR, body);
    NoPadding(asked);
    ReadsWritten(header, UNIQUE_IDENTIFIER, asked, FieldBytes(NTS_AUTHENTICATOR, body), reply);
    LookStep(Field(UNIQUE_IDENTIFIER, asked, 48), FieldsFrom(reply, 84), pending, Look(false, None, false));
    assert reply == before + FieldBytes(NTS_AUTHENTICATOR, body) + [];
    ReadsWritten(before, NTS_AUTHENTICATOR, body, [], reply);
    LookStep(Field(NTS_AUTHENTICATOR, Padded(body), 84), FieldsFrom(reply, 84 + Total(|body|)), pending,
             Look(false, None, true));
  }
}
