/** The protected exchange through the whole responder: parsed, admitted, answered, verified. */
module NtsService {
  import opened Wrappers
  import opened Bytes
  import opened Aead
  import opened ExtensionFields
  import opened Cookies
  import opened NtsExchange
  import opened NtsRoundTrip
  import opened ServerReply
  import ClientTypes
  import ClientAnswers
  import ClientPolicy
  import N = NtpPacket

  ghost predicate Numerable(ring: seq<MasterKey>) {
    Numbered(ring) && forall k | 0 <= k < |ring| :: ring[k].id < WIDE32
  }

  /** A client packet of a version the server answers. */
  predicate Asks(p: N.Packet) {
    N.WellFormed(p) && 3 <= p.version <= 4 && p.mode == N.CLIENT
  }

  /** The header of the answer to `p`, once admitted. */
  function AnswerFor<K>(policy: ClientPolicy.Policy, t: ClientPolicy.Table<K>, key: K, p: N.Packet,
                        x: Inputs): (h: N.Packet)
    requires Complete(x)
    ensures N.WellFormed(h)
  {
    var mode := ClientPolicy.ChooseMode(ClientPolicy.Admit(policy, t, key, x.now).0, Some(key), p.origin).1;
    AnswerHeader(p, mode, x.recv, x.tx, x.stratum, x.upstream)
  }

  lemma RequestStarts(c: Cipher, p: N.Packet, uid: UniqueId, cookie: seq<byte>, extra: nat, c2s: Key, nonce: Nonce)
    returns (tail: seq<byte>)
    requires Asks(p)
    ensures Request(c, N.Image(p), uid, cookie, extra, c2s, nonce) == N.Image(p) + tail
    ensures N.Parse(Request(c, N.Image(p), uid, cookie, extra, c2s, nonce)) == N.Parsed(p)
  {
    var request := Request(c, N.Image(p), uid, cookie, extra, c2s, nonce);
    tail := request[HEADER_LEN..];
    assert request == N.Image(p) + tail;
    N.ParseOfWritten(p, tail);
  }

  lemma ReplyStarts(h: N.Packet, reply: seq<byte>)
    requires N.WellFormed(h) && 3 <= h.version <= 4 && |reply| >= HEADER_LEN && reply[..HEADER_LEN] == N.Image(h)
    ensures N.Parse(reply) == N.Parsed(h)
  {
    assert reply == N.Image(h) + reply[HEADER_LEN..];
    N.ParseOfWritten(h, reply[HEADER_LEN..]);
  }

  /**
   A request protected with a cookie minted under a key the server's ring still holds,
   once it is admitted: the whole responder answers it, with the time in the mode the
   client's record allows; the reply is no longer than the request; the client accepts
   it; and the cookies it recovers, one for the one spent and one per placeholder, eight
   at most, each redeem to the same session keys.
   */
  lemma AdmittedExchange<K>(
      c: Cipher, policy: ClientPolicy.Policy, t: ClientPolicy.Table<K>, key: K, p: N.Packet, uid: UniqueId, i: nat,
      keys: NtsKeys, cookieNonce: Nonce, extra: nat, nonce: Nonce, x: Inputs)
    returns (request: seq<byte>, reply: seq<byte>, cookies: seq<seq<byte>>)
    requires Lawful(c) && Numerable(x.ring) && i < |x.ring| && Complete(x) && Asks(p)
    requires ClientPolicy.Admit(policy, t, key, x.now).1 == ClientTypes.Respond
    ensures request == Request(c, N.Image(p), uid, CookieUnder(c, x.ring[i], keys, cookieNonce), extra, keys.c2s, nonce)
    ensures Handled(c, policy, t, key, request, x).1 == Some(reply)
    ensures N.Parse(reply) == N.Parsed(AnswerFor(policy, t, key, p, x))
    ensures |reply| <= |request|
    ensures VerifiedBy(c, reply, keys.s2c, uid) == Verified(cookies)
    ensures cookies == CookieList(c, x.ring[|x.ring| - 1], keys, x.nonces[..Want(extra)])
    ensures forall k | 0 <= k < |cookies| :: Redeem(c, x.ring, cookies[k]) == Redeemed(keys)
  {
    hide Request, AnswerTo, VerifiedBy, Redeem, CookieUnder, N.Parse, N.Image;
    var h := AnswerFor(policy, t, key, p, x);
    var nak := N.Image(Kiss(p, x.recv, NTSN));
    request, reply, cookies := ExchangeSucceeds(
      c, x.ring, i, keys, cookieNonce, N.Image(p), uid, extra, nonce, N.Image(h), nak, x.nonces, x.nonce);
    var tail := RequestStarts(c, p, uid, CookieUnder(c, x.ring[i], keys, cookieNonce), extra, keys.c2s, nonce);
    ReplyStarts(h, reply);
  }

  /** What the server picks out of a request. */
  function Picked(request: seq<byte>): Gathered {
    Gather(Fields(request), Gathered(None, None, 0, None))
  }

  /** What it takes for a request to be answered by a sealed reply. */
  predicate Sealable(c: Cipher, ring: seq<MasterKey>, request: seq<byte>) {
    var g := Picked(request);
    && g.auth.Some? && g.cookie.Some? && g.uid.Some? && ring != []
    && var redeemed := Redeem(c, ring, g.cookie.value);
       redeemed.Redeemed? && Authentic(c, request, g.auth.value, redeemed.keys.c2s)
  }

  /**
   Whatever arrives: what is not a client's packet, and what is dropped, is not answered;
   a kiss and plain time are 48 octets; and a reply is longer than its request if and
   only if the request is admitted, carries an identifier, a cookie that redeems and an
   authenticator that verifies, and is shorter than its identifier and the cookies it
   counts call for.
   */
  lemma RepliesAreBounded<K>(c: Cipher, policy: ClientPolicy.Policy, t: ClientPolicy.Table<K>, key: K,
                             request: seq<byte>, x: Inputs)
    requires Lawful(c) && Complete(x) && forall m | m in x.ring :: m.id < WIDE32
    ensures var reply := Handled(c, policy, t, key, request, x).1;
            var d := ClientPolicy.Admit(policy, t, key, x.now).1;
            var g := Picked(request);
            && (!Served(request) || d == ClientTypes.Drop ==> reply == None)
            && (Served(request) && (d == ClientTypes.KissOfDeath || (d == ClientTypes.Respond && g.auth.None?)) ==>
                  reply.Some? && |reply.value| == HEADER_LEN <= |request|)
            && (reply.Some? ==>
                  (|reply.value| > |request| <==>
                   && d == ClientTypes.Respond && Sealable(c, x.ring, request)
                   && ReplyLength(g.uid.value, g.placeholders) > |request|))
  {
    hide Gather, N.Image, Redeem, Authentic;
    if Served(request) && ClientPolicy.Admit(policy, t, key, x.now).1 == ClientTypes.Respond {
      var p := N.Parse(request).packet;
      AnswerLength(c, x.ring, request, N.Image(AnswerFor(policy, t, key, p, x)), N.Image(Kiss(p, x.recv, NTSN)),
                   x.nonces, x.nonce);
    }
  }

  // ----- the header on the wire -----

  /** The octets that every reply takes over from its request: version and poll, in server mode. */
  predicate InReplyTo(reply: seq<byte>, request: seq<byte>)
    requires |reply| >= HEADER_LEN && |request| >= HEADER_LEN
  {
    reply[0] / 8 % 8 == request[0] / 8 % 8 && reply[0] % 8 == 4 && reply[2] == request[2] && reply[3] == 236
  }

  /** A kiss: no leap, stratum zero, a code for the reference, and the request's transmit time for the origin. */
  predicate Kisses(reply: seq<byte>, request: seq<byte>, code: seq<byte>)
    requires |reply| >= HEADER_LEN && |request| >= HEADER_LEN
  {
    reply[0] / 64 == 0 && reply[1] == 0 && reply[12..16] == code && reply[24..32] == request[40..48]
  }

  /**
   Time: what the server knows of its own source, the time of receipt for the reference,
   and, from the request, its transmit time for the origin of a basic answer and its
   receive time for that of an interleaved one. The receive time is odd and the transmit
   time even, each within one unit of what it reports.
   */
  predicate TellsTime(reply: seq<byte>, request: seq<byte>, x: Inputs, mode: ClientTypes.ResponseMode)
    requires |reply| >= HEADER_LEN && |request| >= HEADER_LEN
  {
    var received, sent := Value(reply[32..40]), Value(reply[40..48]);
    var stamp := if mode.Basic? then x.tx else mode.prevTransmit;
    && reply[0] / 64 == x.upstream.leap && reply[1] == x.stratum
    && Value(reply[4..8]) == x.upstream.rootDelay && Value(reply[8..12]) == x.upstream.rootDispersion
    && reply[12..16] == x.upstream.referenceId && Value(reply[16..24]) == x.recv
    && reply[24..32] == (if mode.Basic? then request[40..48] else request[32..40])
    && received % 2 == 1 && x.recv <= received <= x.recv + 1 && sent % 2 == 0 && sent <= stamp <= sent + 1
  }

  /** Where the parts of a parsed header lie. */
  lemma RequestParts(request: seq<byte>)
    requires N.Parse(request).Parsed?
    ensures var p := N.Parse(request).packet;
            && N.WellFormed(p) && p.version == request[0] / 8 % 8 && N.Unsigned(p.poll) == request[2]
            && Octets(p.transmit, 8) == request[40..48] && Octets(p.receive, 8) == request[32..40]
  {
    hide Octets, Value;
    N.OctetsBack(request, 40, 8);
    N.OctetsBack(request, 32, 8);
  }

  lemma StampValue(n: N.Stamp)
    ensures Value(Octets(n, 8)) == n
  {
    Spans();
    OctetsFit(n, 8);
  }

  lemma WordValue(n: N.Word)
    ensures Value(Octets(n, 4)) == n
  {
    Spans();
    OctetsFit(n, 4);
  }

  lemma KissTells(request: seq<byte>, recv: N.Stamp, code: seq<byte>, rest: seq<byte>)
    requires N.Parse(request).Parsed? && |code| == 4
    ensures var reply := N.Image(Kiss(N.Parse(request).packet, recv, code)) + rest;
            InReplyTo(reply, request) && Kisses(reply, request, code)
  {
    hide Octets, N.Image, N.Parse;
    RequestParts(request);
    var h := Kiss(N.Parse(request).packet, recv, code);
    N.ImageParts(h, rest);
    N.FirstParts(h);
  }

  lemma TimeTells(request: seq<byte>, mode: ClientTypes.ResponseMode, x: Inputs, rest: seq<byte>)
    requires N.Parse(request).Parsed? && Complete(x)
    ensures var h := AnswerHeader(N.Parse(request).packet, mode, x.recv, x.tx, x.stratum, x.upstream);
            InReplyTo(N.Image(h) + rest, request) && TellsTime(N.Image(h) + rest, request, x, mode)
  {
    hide Octets, Value, N.Image, N.Parse;
    RequestParts(request);
    var h := AnswerHeader(N.Parse(request).packet, mode, x.recv, x.tx, x.stratum, x.upstream);
    N.ImageParts(h, rest);
    N.FirstParts(h);
    WordValue(h.rootDelay);
    WordValue(h.rootDispersion);
    StampValue(h.reference);
    StampValue(h.receive);
    StampValue(h.transmit);
  }

  lemma WithTail(reply: seq<byte>, head: Header)
    requires |reply| >= HEADER_LEN && reply[..HEADER_LEN] == head
    ensures reply == head + reply[HEADER_LEN..]
  {
  }

  lemma SealedStarts(c: Cipher, header: Header, uid: seq<byte>, s2c: Key, nonce: Nonce, plaintext: seq<byte>)
    ensures var reply := Reply(c, header, uid, s2c, nonce, plaintext);
            |reply| >= HEADER_LEN && reply[..HEADER_LEN] == header
  {
  }

  /** Whatever the server replies to a request, in terms of the octets of both. */
  lemma ReplyTells<K>(c: Cipher, policy: ClientPolicy.Policy, t: ClientPolicy.Table<K>, key: K, request: seq<byte>,
                      x: Inputs)
    requires Complete(x) && Served(request) && Handled(c, policy, t, key, request, x).1.Some?
    ensures var reply := Handled(c, policy, t, key, request, x).1.value;
            var (t1, d) := ClientPolicy.Admit(policy, t, key, x.now);
            var mode := ClientPolicy.ChooseMode(t1, Some(key), N.Parse(request).packet.origin).1;
            && |reply| >= HEADER_LEN && InReplyTo(reply, request)
            && (d == ClientTypes.KissOfDeath ==> Kisses(reply, request, [82, 65, 84, 69]))
            && (d == ClientTypes.Respond ==>
                TellsTime(reply, request, x, mode) || Kisses(reply, request, [78, 84, 83, 78]))
            && (d == ClientTypes.Respond && (Picked(request).auth.None? || Sealable(c, x.ring, request)) ==>
                  TellsTime(reply, request, x, mode))
  {
    hide N.Image, N.Parse, Octets, Value, Gather, Redeem, Authentic, Reply, ClientPolicy.Admit, ClientPolicy.ChooseMode,
         Kisses, TellsTime, InReplyTo, CookieFields;
    var reply := Handled(c, policy, t, key, request, x).1.value;
    var (t1, d) := ClientPolicy.Admit(policy, t, key, x.now);
    var p := N.Parse(request).packet;
    var mode := ClientPolicy.ChooseMode(t1, Some(key), p.origin).1;
    var header := N.Image(AnswerHeader(p, mode, x.recv, x.tx, x.stratum, x.upstream));
    var nak := N.Image(Kiss(p, x.recv, NTSN));
    if d == ClientTypes.KissOfDeath {
      KissTells(request, x.recv, RATE, []);
      assert N.Image(Kiss(p, x.recv, RATE)) + [] == reply;
    } else {
      var g := Picked(request);
      var a := AnswerTo(c, x.ring, request, header, nak, x.nonces, x.nonce);
      if a.Extended? {
        var keys := Redeem(c, x.ring, g.cookie.value).keys;
        SealedStarts(c, header, g.uid.value, keys.s2c, x.nonce,
                     CookieFields(c, x.ring[|x.ring| - 1], keys, x.nonces[..Want(g.placeholders)]));
        WithTail(reply, header);
        TimeTells(request, mode, x, reply[HEADER_LEN..]);
      } else if a.NakReply? {
        WithTail(reply, nak);
        KissTells(request, x.recv, NTSN, reply[HEADER_LEN..]);
      } else {
        WithTail(reply, header);
        TimeTells(request, mode, x, reply[HEADER_LEN..]);
      }
    }
  }

  lemma AnsweredIsTabled<K>(policy: ClientPolicy.Policy, t: ClientPolicy.Table<K>, key: K, now: real)
    requires ClientPolicy.Admit(policy, t, key, now).1 == ClientTypes.Respond
    ensures key in ClientPolicy.Admit(policy, t, key, now).0.records
  {
    hide ClientPolicy.Admit;
    ClientPolicy.ShedIsNotAnswered(policy, t, key, now);
    ClientAnswers.AdmitWrites(policy, t, key, now, key);
  }

  lemma NotedIsOwn<K>(t: ClientPolicy.Table<K>, key: K, origin: N.Stamp, recv: N.Stamp, sent: N.Stamp)
    requires key in t.records
    ensures var t1 := ClientPolicy.ChooseMode(t, Some(key), origin).0;
            var t2 := ClientPolicy.NoteResponse(t1, Some(key), recv, sent);
            && key in t2.records && t2.records[key].lastReceive == recv && t2.records[key].lastReceiveSent == sent
            && t2.records[key].lastTransmit == t.records[key].lastTransmit
  {
  }

  /**
   A reply that tells the time reports the receive time that is remembered of its client:
   echoed, it makes the next answer an interleaved one, as soon as a transmit time is noted.
   */
  lemma ReplyIsRemembered<K>(c: Cipher, policy: ClientPolicy.Policy, t: ClientPolicy.Table<K>, key: K,
                             request: seq<byte>, x: Inputs)
    requires Complete(x) && Served(request) && Picked(request).auth.None?
    requires ClientPolicy.Admit(policy, t, key, x.now).1 == ClientTypes.Respond
    ensures key in ClientPolicy.Admit(policy, t, key, x.now).0.records
    ensures var (t', reply) := Handled(c, policy, t, key, request, x);
            && reply.Some? && |reply.value| >= HEADER_LEN
            && key in t'.records && t'.records[key].lastReceive == x.recv
            && t'.records[key].lastReceiveSent == N.StampAt(reply.value, 32)
            && t'.records[key].lastTransmit == ClientPolicy.Admit(policy, t, key, x.now).0.records[key].lastTransmit
            && forall left: N.Stamp | left != 0 ::
                 ClientPolicy.ChooseMode(ClientPolicy.NoteTransmit(t', Some(key), left), Some(key),
                                         N.StampAt(reply.value, 32)).1
                 == ClientTypes.Interleaved(left)
  {
    hide N.Image, N.Parse, Octets, Value, Gather, ClientPolicy.Admit;
    var p := N.Parse(request).packet;
    var t1 := ClientPolicy.Admit(policy, t, key, x.now).0;
    var mode := ClientPolicy.ChooseMode(t1, Some(key), p.origin).1;
    AnsweredIsTabled(policy, t, key, x.now);
    NotedIsOwn(t1, key, p.origin, x.recv, Reported(mode, x.recv).0);
    var h := AnswerHeader(p, mode, x.recv, x.tx, x.stratum, x.upstream);
    N.ImageParts(h, []);
    assert N.Image(h) + [] == N.Image(h);
    N.StampBack(h.receive, N.Image(h), 32);
  }
}
