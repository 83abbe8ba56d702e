/** Sessions against the responder: one exchange, and any number of them. */
module NtsRuns {
  import opened Wrappers
  import opened Bytes
  import opened Aead
  import opened ExtensionFields
  import opened Cookies
  import opened NtsExchange
  import opened NtsRoundTrip
  import opened ServerReply
  import opened NtsService
  import opened NtsSession
  import ClientTypes
  import ClientPolicy
  import ClientTable
  import N = NtpPacket

  /** What the client makes of a kiss or of plain time: nothing under it is authentic. */
  lemma BareIsRefused(c: Cipher, header: Header, s2c: Key, uid: UniqueId)
    ensures VerifiedBy(c, header, s2c, uid).Failed?
  {
    PeekMeans(header[HEADER_LEN..]);
    FieldsEnd(header, HEADER_LEN);
  }

  /** A cookie of one of some master keys. */
  ghost predicate Minted(c: Cipher, masters: seq<MasterKey>, keys: NtsKeys, cookie: seq<byte>) {
    exists i: nat, n: Nonce :: i < |masters| && cookie == CookieUnder(c, masters[i], keys, n)
  }

  /** A refusal that tells the client to establish keys anew. */
  predicate SaysRenew(reply: seq<byte>) {
    N.Parse(reply).Parsed? && N.Parse(reply).packet.stratum == 0 && N.Parse(reply).packet.referenceId == NTSN
  }

  lemma KissParses(p: N.Packet, recv: N.Stamp, code: seq<byte>, rest: seq<byte>)
    requires Asks(p) && |code| == 4
    ensures N.Parse(N.Image(Kiss(p, recv, code)) + rest) == N.Parsed(Kiss(p, recv, code))
  {
    N.ParseOfWritten(Kiss(p, recv, code), rest);
  }

  /** The cookies banked by a session that has `left` cookies when the reply comes. */
  function Banked(c: Cipher, keys: NtsKeys, x: Inputs, left: nat): seq<seq<byte>>
    requires Complete(x) && x.ring != []
  {
    CookieList(c, x.ring[|x.ring| - 1], keys, x.nonces[..Room(left, Want(Asked(left)))])
  }

  /** The first `k` nonces differ, and the cookies minted for them are new to the stream. */
  ghost predicate KeepsApart(c: Cipher, keys: NtsKeys, x: Inputs, k: nat, stream: seq<seq<byte>>)
    requires Complete(x) && x.ring != [] && k <= |x.nonces|
  {
    && Distinct(x.nonces[..k])
    && forall n | n in x.nonces[..k] :: CookieUnder(c, x.ring[|x.ring| - 1], keys, n) !in stream
  }

  /** Cookies are told apart by their nonces. */
  lemma DistinctByNonce(c: Cipher, m: MasterKey, keys: NtsKeys, nonces: seq<Nonce>)
    ensures Distinct(CookieList(c, m, keys, nonces)) <==> Distinct(nonces)
  {
    hide CookieUnder, NonceIn;
    var list := CookieList(c, m, keys, nonces);
    forall i, j | 0 <= i < j < |nonces|
      ensures list[i] == list[j] <==> nonces[i] == nonces[j]
    {
      NonceOfCookie(c, m, keys, nonces[i]);
      NonceOfCookie(c, m, keys, nonces[j]);
    }
  }

  /** Banking keeps the store's record free of repeats if and only if the nonces differ and make new cookies. */
  lemma BankedDistinct(c: Cipher, keys: NtsKeys, x: Inputs, left: nat, stream: seq<seq<byte>>)
    requires Complete(x) && x.ring != []
    ensures Distinct(stream + Banked(c, keys, x, left))
            <==> Distinct(stream) && KeepsApart(c, keys, x, Room(left, Want(Asked(left))), stream)
  {
    hide CookieUnder;
    var m, nonces, more := x.ring[|x.ring| - 1], x.nonces[..Room(left, Want(Asked(left)))], Banked(c, keys, x, left);
    AppendedDistinct(stream, more);
    DistinctByNonce(c, m, keys, nonces);
    forall n | n in nonces
      ensures CookieUnder(c, m, keys, n) in more
    {
      var k :| 0 <= k < |nonces| && nonces[k] == n;
      assert more[k] == CookieUnder(c, m, keys, n);
    }
    forall y | y in more
      ensures exists n | n in nonces :: y == CookieUnder(c, m, keys, n)
    {
      var k :| 0 <= k < |more| && more[k] == y;
      assert nonces[k] in nonces;
    }
  }

  // ----- one exchange -----

  /** What a server's ring has to do with the master keys given out over time. */
  ghost predicate Knows(masters: seq<MasterKey>, x: Inputs)
    ensures Knows(masters, x) ==> Complete(x) && x.ring != []
  {
    Numerable(masters) && RingOf(x.ring, masters) && Complete(x)
  }

  lemma RingIsNumerable(masters: seq<MasterKey>, x: Inputs)
    requires Knows(masters, x)
    ensures Numerable(x.ring)
  {
    forall k | 0 <= k < |x.ring|
      ensures x.ring[k].id < WIDE32
    {
      assert x.ring[k] in masters;
    }
  }

  /** An admitted request whose cookie redeems is answered, and what the client banks of the answer is known. */
  lemma ServedIsBanked<K>(
      c: Cipher, policy: ClientPolicy.Policy, t: ClientPolicy.Table<K>, key: K, p: N.Packet, uid: UniqueId,
      masters: seq<MasterKey>, cookie: seq<byte>, keys: NtsKeys, left: nat, nonce: Nonce, x: Inputs)
    returns (reply: seq<byte>, minted: seq<seq<byte>>)
    requires Lawful(c) && Knows(masters, x) && Asks(p) && Minted(c, masters, keys, cookie)
    requires ClientPolicy.Admit(policy, t, key, x.now).1 == ClientTypes.Respond
    requires Redeem(c, x.ring, cookie) == Redeemed(keys)
    ensures Handled(c, policy, t, key, Request(c, N.Image(p), uid, cookie, Asked(left), keys.c2s, nonce), x).1
            == Some(reply)
    ensures VerifiedBy(c, reply, keys.s2c, uid) == Verified(minted) && |minted| == Want(Asked(left))
    ensures minted[..Room(left, |minted|)] == Banked(c, keys, x, left)
    ensures forall cookie | cookie in Banked(c, keys, x, left) :: Redeem(c, x.ring, cookie) == Redeemed(keys)
  {
    hide Request, VerifiedBy, Redeem, CookieUnder, N.Parse, N.Image, Handled, ClientPolicy.Admit, Served;
    var i: nat, n: Nonce :| i < |masters| && cookie == CookieUnder(c, masters[i], keys, n);
    RedeemsWhereHeld(c, masters, i, x.ring, keys, n);
    var j :| 0 <= j < |x.ring| && x.ring[j] == masters[i];
    RingIsNumerable(masters, x);
    var request;
    request, reply, minted := AdmittedExchange(c, policy, t, key, p, uid, j, keys, n, Asked(left), nonce, x);
    assert forall cookie | cookie in Banked(c, keys, x, left) :: cookie in minted;
  }

  /** An admitted request whose cookie does not redeem is told so. */
  lemma UnredeemedIsRefused<K>(
      c: Cipher, policy: ClientPolicy.Policy, t: ClientPolicy.Table<K>, key: K, p: N.Packet, uid: UniqueId,
      masters: seq<MasterKey>, cookie: seq<byte>, keys: NtsKeys, left: nat, nonce: Nonce, x: Inputs)
    returns (reply: seq<byte>)
    requires Lawful(c) && Knows(masters, x) && Asks(p) && Minted(c, masters, keys, cookie)
    requires ClientPolicy.Admit(policy, t, key, x.now).1 == ClientTypes.Respond
    requires Redeem(c, x.ring, cookie) != Redeemed(keys)
    ensures Handled(c, policy, t, key, Request(c, N.Image(p), uid, cookie, Asked(left), keys.c2s, nonce), x).1
            == Some(reply)
    ensures VerifiedBy(c, reply, keys.s2c, uid) == Failed(Nak) && SaysRenew(reply)
  {
    hide Request, VerifiedBy, Redeem, CookieUnder, N.Parse, N.Image, ClientPolicy.Admit;
    var i: nat, n: Nonce :| i < |masters| && cookie == CookieUnder(c, masters[i], keys, n);
    RedeemsWhereHeld(c, masters, i, x.ring, keys, n);
    CookieShape(c, masters[i], keys, n);
    var header, nak := N.Image(AnswerFor(policy, t, key, p, x)), N.Image(Kiss(p, x.recv, NTSN));
    ServerRefuses(c, x.ring, N.Image(p), uid, cookie, Asked(left), keys, nonce, header, nak, x.nonces, x.nonce);
    var tail := RequestStarts(c, p, uid, cookie, Asked(left), keys.c2s, nonce);
    NakIsRefused(c, nak, keys.s2c, uid);
    KissParses(p, x.recv, NTSN, FieldBytes(UNIQUE_IDENTIFIER, uid));
    reply := nak + FieldBytes(UNIQUE_IDENTIFIER, uid);
  }

  /** A request that is not admitted draws nothing, or a kiss that means something else. */
  lemma UnadmittedIsRefused<K>(
      c: Cipher, policy: ClientPolicy.Policy, t: ClientPolicy.Table<K>, key: K, p: N.Packet, uid: UniqueId,
      cookie: seq<byte>, keys: NtsKeys, left: nat, nonce: Nonce, x: Inputs)
    requires Complete(x) && Asks(p) && ClientPolicy.Admit(policy, t, key, x.now).1 != ClientTypes.Respond
    ensures var request := Request(c, N.Image(p), uid, cookie, Asked(left), keys.c2s, nonce);
            var reply := Handled(c, policy, t, key, request, x).1;
            reply.Some? ==> VerifiedBy(c, reply.value, keys.s2c, uid).Failed? && !SaysRenew(reply.value)
  {
    hide Request, VerifiedBy, N.Image, N.Parse, ClientPolicy.Admit;
    var request := Request(c, N.Image(p), uid, cookie, Asked(left), keys.c2s, nonce);
    var reply := Handled(c, policy, t, key, request, x).1;
    var tail := RequestStarts(c, p, uid, cookie, Asked(left), keys.c2s, nonce);
    if reply.Some? {
      BareIsRefused(c, reply.value, keys.s2c, uid);
      KissParses(p, x.recv, RATE, []);
      assert N.Image(Kiss(p, x.recv, RATE)) + [] == reply.value;
    }
  }

  /** What comes of a reply, in all cases. */
  lemma ReplyMeaning<K>(
      c: Cipher, policy: ClientPolicy.Policy, t: ClientPolicy.Table<K>, key: K, p: N.Packet, uid: UniqueId,
      masters: seq<MasterKey>, cookie: seq<byte>, keys: NtsKeys, left: nat, nonce: Nonce, x: Inputs)
    requires Lawful(c) && Knows(masters, x) && Asks(p) && Minted(c, masters, keys, cookie)
    ensures var request := Request(c, N.Image(p), uid, cookie, Asked(left), keys.c2s, nonce);
            var reply := Handled(c, policy, t, key, request, x).1;
            var admitted := ClientPolicy.Admit(policy, t, key, x.now).1 == ClientTypes.Respond;
            var redeems := Redeem(c, x.ring, cookie) == Redeemed(keys);
            && (admitted ==> reply.Some?)
            && (reply.Some? ==>
                  var v := VerifiedBy(c, reply.value, keys.s2c, uid);
                  && (v.Verified? <==> admitted && redeems)
                  && (v.Failed? && SaysRenew(reply.value) <==> admitted && !redeems)
                  && (v.Verified? ==> v.cookies[..Room(left, |v.cookies|)] == Banked(c, keys, x, left)))
            && (admitted && redeems ==>
                  forall cookie | cookie in Banked(c, keys, x, left) :: Redeem(c, x.ring, cookie) == Redeemed(keys))
  {
    hide Minted, Request, VerifiedBy, Redeem, Banked, SaysRenew, Knows, N.Image, Handled, ClientPolicy.Admit;
    if ClientPolicy.Admit(policy, t, key, x.now).1 != ClientTypes.Respond {
      UnadmittedIsRefused(c, policy, t, key, p, uid, cookie, keys, left, nonce, x);
    } else if Redeem(c, x.ring, cookie) == Redeemed(keys) {
      var sealed, minted := ServedIsBanked(c, policy, t, key, p, uid, masters, cookie, keys, left, nonce, x);
    } else {
      var nak := UnredeemedIsRefused(c, policy, t, key, p, uid, masters, cookie, keys, left, nonce, x);
    }
  }

  /**
   A whole exchange with a server that may have rotated its keys since the cookie about to
   be spent was minted. Where the client is admitted, the cookie still redeems and the
   reply arrives, it verifies, and what is banked are the cookies minted for the reply's
   first nonces, which redeem to the session keys; otherwise a cookie is lost and nothing
   is banked, and the client is told to establish keys anew exactly where it is admitted
   and its cookie does not redeem. The record of the store stays free of repeats if and
   only if the nonces used differ and their cookies are new.
   */
  method Loopback<K(==)>(
      session: NtsSession, clients: ClientTable.ClientTable<K>, key: K, p: N.Packet, uid: UniqueId, nonce: Nonce,
      x: Inputs, arrives: bool, ghost masters: seq<MasterKey>)
    returns (v: Option<Verified>, renew: bool)
    requires session.Valid() && session.cookies != [] && clients.Valid()
    requires Lawful(session.cipher) && Knows(masters, x) && Asks(p)
    requires Minted(session.cipher, masters, session.keys, session.cookies[0])
    modifies session, clients, clients.index, clients.index.buckets
    ensures session.Valid() && clients.Valid() && session.sent == old(session.sent) + [old(session.next)]
    ensures var left := |old(session.cookies)| - 1;
            var admitted := ClientPolicy.Admit(clients.policy, old(clients.table), key, x.now).1 == ClientTypes.Respond;
            var redeems := Redeem(session.cipher, x.ring, old(session.cookies)[0]) == Redeemed(session.keys);
            var served := arrives && admitted && redeems;
            var more := if served then Banked(session.cipher, session.keys, x, left) else [];
            && (v.Some? && v.value.Verified? <==> served)
            && (renew <==> arrives && admitted && !redeems)
            && session.cookies == old(session.cookies)[1..] + more
            && session.stream == old(session.stream) + more
            && (forall cookie | cookie in more :: Redeem(session.cipher, x.ring, cookie) == Redeemed(session.keys))
            && (Distinct(session.stream) <==>
                && Distinct(old(session.stream))
                && (served ==>
                      KeepsApart(session.cipher, session.keys, x, Room(left, Want(Asked(left))), old(session.stream))))
  {
    hide Minted, Request, VerifiedBy, Redeem, Banked, KeepsApart, Distinct, SaysRenew, Knows, N.Image, Handled,
         ClientPolicy.Admit, Served;
    ghost var c, keys, held, t := session.cipher, session.keys, session.cookies, clients.table;
    ghost var left := |held| - 1;
    var packet := session.Protect(N.Image(p), uid, nonce);
    var reply, handle := BuildReplyIn(session.cipher, clients, key, packet.value, x);
    ReplyMeaning(c, clients.policy, t, key, p, uid, masters, held[0], keys, left, nonce, x);
    BankedDistinct(c, keys, x, left, session.stream);
    if !arrives || reply.None? {
      return None, false;
    }
    var verified := session.Verify(reply.value);
    return Some(verified), verified.Failed? && SaysRenew(reply.value);
  }

  /** A cookie of a key in the ring redeems. */
  lemma HeldRedeems(c: Cipher, x: Inputs, keys: NtsKeys, cookie: seq<byte>)
    requires Lawful(c) && Knows(x.ring, x) && Minted(c, x.ring, keys, cookie)
    ensures Redeem(c, x.ring, cookie) == Redeemed(keys)
  {
    hide Redeem, CookieUnder;
    var i: nat, n: Nonce :| i < |x.ring| && cookie == CookieUnder(c, x.ring[i], keys, n);
    RedeemsWhereHeld(c, x.ring, i, x.ring, keys, n);
  }

  /**
   The exchange behind a cookie sent twice: the last cookie is spent, the eight that come
   back are banked from two copies of the reply, and all sixteen are spent.
   */
  method ReplyCopied<K(==)>(
      session: NtsSession, clients: ClientTable.ClientTable<K>, key: K, p: N.Packet, uid: UniqueId, nonce: Nonce,
      x: Inputs, uids: seq<UniqueId>, nonces: seq<Nonce>)
    requires session.Valid() && |session.cookies| == 1 && |uids| == |nonces| == 16
    requires Lawful(session.cipher) && Knows(x.ring, x) && Asks(p)
    requires Minted(session.cipher, x.ring, session.keys, session.cookies[0])
    requires clients.Valid() && ClientPolicy.Admit(clients.policy, clients.table, key, x.now).1 == ClientTypes.Respond
    modifies session, clients, clients.index, clients.index.buckets
    ensures session.Valid() && clients.Valid() && !session.SentOnce()
  {
    hide Minted, Request, VerifiedBy, Redeem, Banked, N.Image, Handled, ClientPolicy.Admit, Served;
    HeldRedeems(session.cipher, x, session.keys, session.cookies[0]);
    ghost var c, keys, cookie := session.cipher, session.keys, session.cookies[0];
    ghost var sealed, minted :=
      ServedIsBanked(c, clients.policy, clients.table, key, p, uid, x.ring, cookie, keys, 0, nonce, x);
    var packet := session.Protect(N.Image(p), uid, nonce);
    var reply, handle := BuildReplyIn(session.cipher, clients, key, packet.value, x);
    session.AcceptedTwice(reply.value, minted, N.Image(p), uids, nonces);
  }

  // ----- any number of exchanges -----

  /** One exchange of a run: who asks, with what, what the server draws, and whether the reply arrives. */
  datatype Round<K> = Round(key: K, p: N.Packet, uid: UniqueId, nonce: Nonce, x: Inputs, arrives: bool)

  /** The nonces the server draws in a run. */
  function Drawn<K>(rounds: seq<Round<K>>): seq<seq<byte>> {
    if rounds == [] then [] else rounds[0].x.nonces + Drawn(rounds[1..])
  }

  function NoncesOf(stream: seq<seq<byte>>): (ns: seq<seq<byte>>)
    ensures |ns| == |stream|
  {
    seq(|stream|, i requires 0 <= i < |stream| => NonceIn(stream[i]))
  }

  /** Leaving some values out keeps the others apart. */
  lemma DistinctWithout<T>(a: seq<T>, b: seq<T>, k: nat, d: seq<T>)
    requires k <= |b| && Distinct(a + (b + d))
    ensures Distinct(a + b[..k] + d) && Distinct(a + b[..k])
  {
    AppendedDistinct(a, b + d);
    AppendedDistinct(b, d);
    assert b == b[..k] + b[k..];
    AppendedDistinct(b[..k], b[k..]);
    AppendedDistinct(a, b[..k]);
    AppendedDistinct(a + b[..k], d);
    forall y | y in d
      ensures y !in a + b[..k]
    {
      assert y in b + d;
    }
  }

  /** Where all nonces differ, so do the cookies. */
  lemma NoncesTellApart(stream: seq<seq<byte>>)
    requires Distinct(NoncesOf(stream))
    ensures Distinct(stream)
  {
    var ns := NoncesOf(stream);
    forall i, j | 0 <= i < j < |stream|
      ensures stream[i] != stream[j]
    {
      assert ns[i] != ns[j];
    }
  }

  lemma NoncesOfBanked(c: Cipher, keys: NtsKeys, x: Inputs, left: nat, stream: seq<seq<byte>>)
    requires Complete(x) && x.ring != []
    ensures NoncesOf(stream + Banked(c, keys, x, left)) == NoncesOf(stream) + x.nonces[..Room(left, Want(Asked(left)))]
  {
    hide CookieUnder, NonceIn;
    forall k | 0 <= k < |x.nonces|
      ensures NonceIn(CookieUnder(c, x.ring[|x.ring| - 1], keys, x.nonces[k])) == x.nonces[k]
    {
      NonceOfCookie(c, x.ring[|x.ring| - 1], keys, x.nonces[k]);
    }
  }

  /** One exchange uses up some of its nonces; those of the others stay new. */
  lemma RoundKeepsApart(c: Cipher, keys: NtsKeys, x: Inputs, left: nat, before: seq<seq<byte>>, after: seq<seq<byte>>,
                        more: seq<seq<byte>>)
    requires Complete(x) && x.ring != [] && (after == before || after == before + Banked(c, keys, x, left))
    requires Distinct(NoncesOf(before) + (x.nonces + more))
    ensures Distinct(NoncesOf(after) + more)
  {
    hide Banked, NoncesOf, Distinct;
    if after == before {
      assert NoncesOf(before) + x.nonces[..0] == NoncesOf(before);
      DistinctWithout(NoncesOf(before), x.nonces, 0, more);
    } else {
      NoncesOfBanked(c, keys, x, left, before);
      DistinctWithout(NoncesOf(before), x.nonces, Room(left, Want(Asked(left))), more);
    }
  }

  lemma BankedAreMinted(c: Cipher, masters: seq<MasterKey>, keys: NtsKeys, x: Inputs, left: nat)
    requires Knows(masters, x)
    ensures forall cookie | cookie in Banked(c, keys, x, left) :: Minted(c, masters, keys, cookie)
  {
    hide CookieUnder;
    var m := x.ring[|x.ring| - 1];
    assert m in masters;
    var i :| 0 <= i < |masters| && masters[i] == m;
  }

  lemma DistinctSentOnce(session: NtsSession)
    requires session.Valid() && Distinct(session.stream)
    ensures session.SentOnce()
  {
  }

  /** One round: an exchange, unless the store is empty, which is given up where the server asks for that. */
  method Exchange<K(==)>(session: NtsSession, clients: ClientTable.ClientTable<K>, r: Round<K>,
                         ghost masters: seq<MasterKey>, ghost more: seq<seq<byte>>)
    requires session.Valid() && clients.Valid() && Lawful(session.cipher) && Knows(masters, r.x) && Asks(r.p)
    requires forall cookie | cookie in session.cookies :: Minted(session.cipher, masters, session.keys, cookie)
    requires Distinct(NoncesOf(session.stream) + (r.x.nonces + more))
    modifies session, clients, clients.index, clients.index.buckets
    ensures session.Valid() && clients.Valid() && old(session.stream) <= session.stream
    ensures forall cookie | cookie in session.cookies :: Minted(session.cipher, masters, session.keys, cookie)
    ensures Distinct(NoncesOf(session.stream) + more)
  {
    hide Minted, Banked, NoncesOf, KeepsApart, Redeem, Distinct, ClientPolicy.Admit;
    ghost var before, left := session.stream, if session.cookies == [] then 0 else |session.cookies| - 1;
    BankedAreMinted(session.cipher, masters, session.keys, r.x, left);
    if session.cookies != [] {
      var v, renew := Loopback(session, clients, r.key, r.p, r.uid, r.nonce, r.x, r.arrives, masters);
      if renew {
        session.ForgetCookies();
      }
    }
    RoundKeepsApart(session.cipher, session.keys, r.x, left, before, session.stream, more);
  }

  /**
   Any number of exchanges with a server that rotates its keys in between, admitted or
   not, with replies that arrive or are lost, giving up the store where the server cannot
   redeem: with master keys that are numbered apart, and nonces that are new and pairwise
   different, no cookie is ever sent twice.
   */
  method Exchanges<K(==)>(session: NtsSession, clients: ClientTable.ClientTable<K>, rounds: seq<Round<K>>,
                          ghost masters: seq<MasterKey>)
    requires session.Valid() && clients.Valid() && Lawful(session.cipher)
    requires forall cookie | cookie in session.cookies :: Minted(session.cipher, masters, session.keys, cookie)
    requires forall r | r in rounds :: Knows(masters, r.x) && Asks(r.p)
    requires Distinct(NoncesOf(session.stream) + Drawn(rounds))
    modifies session, clients, clients.index, clients.index.buckets
    ensures session.Valid() && clients.Valid()
    ensures session.SentOnce() && Distinct(session.stream) && old(session.stream) <= session.stream
    ensures forall cookie | cookie in session.cookies :: Minted(session.cipher, masters, session.keys, cookie)
  {
    hide Minted, NoncesOf, Knows, Distinct;
    for i := 0 to |rounds|
      invariant session.Valid() && clients.Valid() && old(session.stream) <= session.stream
      invariant forall cookie | cookie in session.cookies :: Minted(session.cipher, masters, session.keys, cookie)
      invariant Distinct(NoncesOf(session.stream) + Drawn(rounds[i..]))
    {
      assert rounds[i..][1..] == rounds[i + 1..];
      Exchange(session, clients, rounds[i], masters, Drawn(rounds[i + 1..]));
    }
    assert rounds[|rounds|..] == [] && NoncesOf(session.stream) + [] == NoncesOf(session.stream);
    NoncesTellApart(session.stream);
    DistinctSentOnce(session);
  }
}
