/** One request at the server: what is refused, what is charged, and what goes on the wire. */
module ServerReply {
  import opened Wrappers
  import opened Bytes
  import opened ExtensionFields
  import opened Aead
  import opened Cookies
  import opened NtsExchange
  import ClientTypes
  import ClientPolicy
  import TableState
  import ClientTable
  import N = NtpPacket

  /** What the server knows of its own source. */
  datatype Upstream = Upstream(leap: nat, rootDelay: N.Word, rootDispersion: N.Word, referenceId: seq<byte>)

  predicate Known(up: Upstream) {
    up.leap < 4 && |up.referenceId| == 4
  }

  /** Receive times are odd and transmit times even. */
  function Marked(receive: N.Stamp, transmit: N.Stamp): (m: (N.Stamp, N.Stamp))
  {
    (if receive % 2 == 0 then receive + 1 else receive, transmit - transmit % 2)
  }

  /** Marking tells the two apart, moves each by at most one unit, and is done once: a marked pair stays. */
  lemma MarkedMeaning(receive: N.Stamp, transmit: N.Stamp)
    ensures var (r, t) := Marked(receive, transmit);
            && r != t && r != 0 && receive <= r <= receive + 1 && transmit - 1 <= t <= transmit
            && Marked(r, t) == (r, t)
  {
  }

  /** The kiss: stratum zero and a code, echoing the request's transmit time. */
  function Kiss(request: N.Packet, recv: N.Stamp, code: seq<byte>): (k: N.Packet)
    requires |code| == 4
    ensures N.WellFormed(k)
  {
    N.Packet(0, request.version, N.SERVER, 0, request.poll, -20, 0, 0, code, 0, request.transmit, recv, recv)
  }

  const RATE: seq<byte> := [82, 65, 84, 69]
  const NTSN: seq<byte> := [78, 84, 83, 78]

  /** The receive and transmit times an answer reports before the last stamp. */
  function Reported(mode: ClientTypes.ResponseMode, recv: N.Stamp): (N.Stamp, N.Stamp) {
    match mode
    case Basic => Marked(recv, recv)
    case Interleaved(prev) => Marked(recv, prev)
  }

  /**
   The header of an answer: a basic one is stamped last of all, an interleaved one carries
   the earlier transmit time.
   */
  function AnswerHeader(request: N.Packet, mode: ClientTypes.ResponseMode, recv: N.Stamp, tx: N.Stamp,
                        stratum: byte, up: Upstream): (h: N.Packet)
    requires Known(up)
    ensures N.WellFormed(h)
  {
    var (receive, transmit) := Reported(mode, recv);
    N.Packet(up.leap, request.version, N.SERVER, stratum, request.poll, -20, up.rootDelay, up.rootDispersion,
             up.referenceId, recv, if mode.Basic? then request.transmit else request.receive,
             receive, if mode.Basic? then Marked(receive, tx).1 else transmit)
  }

  /**
   A client tells the mode from the origin: a basic answer echoes its transmit time, an
   interleaved one its receive time; the reported receive time is always this
   exchange's, and differs from the transmit time.
   */
  lemma AnswerHeaderMeaning(request: N.Packet, mode: ClientTypes.ResponseMode, recv: N.Stamp, tx: N.Stamp,
                            stratum: byte, up: Upstream)
    requires Known(up)
    ensures var h := AnswerHeader(request, mode, recv, tx, stratum, up);
            && h.origin == (if mode.Basic? then request.transmit else request.receive)
            && h.receive != h.transmit && recv <= h.receive <= recv + 1
            && (mode.Basic? ==> tx - 1 <= h.transmit <= tx)
            && (mode.Interleaved? ==> mode.prevTransmit - 1 <= h.transmit <= mode.prevTransmit)
  {
  }

  /** What the caller of the responder passes in beside the request. */
  datatype Inputs = Inputs(
    recv: N.Stamp, tx: N.Stamp, now: real, stratum: byte, upstream: Upstream,
    ring: seq<MasterKey>, nonces: seq<Nonce>, nonce: Nonce)

  predicate Complete(x: Inputs) {
    Known(x.upstream) && |x.nonces| == MAX_REPLY_COOKIES
  }

  /** What is answered to an admitted request. */
  function WireReply(c: Cipher, request: seq<byte>, p: N.Packet, mode: ClientTypes.ResponseMode,
                     x: Inputs): Option<seq<byte>>
    requires Complete(x)
  {
    var header := N.Image(AnswerHeader(p, mode, x.recv, x.tx, x.stratum, x.upstream));
    match AnswerTo(c, x.ring, request, header, N.Image(Kiss(p, x.recv, NTSN)), x.nonces, x.nonce)
    case Plain => Some(header)
    case Silent => None
    case NakReply(bytes) => Some(bytes)
    case Extended(bytes) => Some(bytes)
  }

  /** Is the request one a server answers at all? */
  predicate Served(request: seq<byte>) {
    N.Parse(request).Parsed? && N.Parse(request).packet.mode == N.CLIENT
  }

  /** The table and the reply of a request that was admitted. */
  function Responded<K>(c: Cipher, t: ClientPolicy.Table<K>, key: K, request: seq<byte>, x: Inputs)
    : (ClientPolicy.Table<K>, Option<seq<byte>>)
    requires Complete(x) && Served(request)
  {
    var p := N.Parse(request).packet;
    var (t1, mode) := ClientPolicy.ChooseMode(t, Some(key), p.origin);
    (ClientPolicy.NoteResponse(t1, Some(key), x.recv, Reported(mode, x.recv).0), WireReply(c, request, p, mode, x))
  }

  /**
   The whole responder: a request that is too short, of another version or not from a
   client is refused and costs nothing; any other is charged before any cipher runs;
   only an admitted one draws more than a kiss.
   */
  function Handled<K(==)>(c: Cipher, policy: ClientPolicy.Policy, t: ClientPolicy.Table<K>, key: K, request: seq<byte>,
                          x: Inputs)
    : (ClientPolicy.Table<K>, Option<seq<byte>>)
    requires Complete(x)
  {
    if !Served(request) then (ClientPolicy.Step(policy, t, ClientPolicy.Refused), None)
    else
      var (t1, d) := ClientPolicy.Admit(policy, t, key, x.now);
      match d
      case Drop => (t1, None)
      case KissOfDeath => (t1, Some(N.Image(Kiss(N.Parse(request).packet, x.recv, RATE))))
      case Respond => Responded(c, t1, key, request, x)
  }

  /** Build the reply of an admitted request through its handle, without hashing its key again. */
  method Respond<K(==)>(c: Cipher, clients: ClientTable.ClientTable<K>, ghost key: K, handle: ClientTypes.ClientHandle,
                        request: seq<byte>, x: Inputs) returns (reply: Option<seq<byte>>)
    requires clients.Valid() && Complete(x) && Served(request)
    requires TableState.Owner(clients.Now(), handle) == Some(key)
    modifies clients`slots, clients`stats, clients`table
    ensures clients.Valid() && (clients.table, reply) == Responded(c, old(clients.table), key, request, x)
    ensures TableState.Owner(clients.Now(), handle) == Some(key)
  {
    var p := N.Parse(request).packet;
    ghost var t := clients.table;
    var mode := clients.ResponseModeAt(handle, p.origin);
    var (receive, transmit) := Reported(mode, x.recv);
    clients.NoteResponseAt(handle, x.recv, receive);
    var header := N.Image(AnswerHeader(p, mode, x.recv, x.tx, x.stratum, x.upstream));
    var answer := AnswerNts(c, x.ring, request, header, N.Image(Kiss(p, x.recv, NTSN)), x.nonces, x.nonce);
    match answer
    case Plain => reply := Some(header);
    case Silent => reply := None;
    case NakReply(bytes) => reply := Some(bytes);
    case Extended(bytes) => reply := Some(bytes);
  }

  /**
   Answer one request against the client table. The handle that comes with the reply
   leads to the client that asked, so that the transmit time noted by it is its own.
   */
  method BuildReplyIn<K(==)>(c: Cipher, clients: ClientTable.ClientTable<K>, key: K, request: seq<byte>, x: Inputs)
    returns (reply: Option<seq<byte>>, handle: ClientTypes.ClientHandle)
    requires clients.Valid() && Complete(x)
    modifies clients, clients.index, clients.index.buckets
    ensures clients.Valid()
    ensures (clients.table, reply) == Handled(c, clients.policy, old(clients.table), key, request, x)
    ensures if Served(request) && !ClientPolicy.Shed(clients.policy.config, old(clients.table), x.now)
            then TableState.Owner(clients.Now(), handle) == Some(key) else handle == ClientTypes.INVALID
  {
    handle := ClientTypes.INVALID;
    ghost var t := clients.table;
    if !Served(request) {
      clients.NoteRefused();
      return None, handle;
    }
    var d;
    d, handle := clients.AdmitHandle(key, x.now);
    match d
    case Drop =>
      reply := None;
    case KissOfDeath =>
      reply := Some(N.Image(Kiss(N.Parse(request).packet, x.recv, RATE)));
    case Respond =>
      ClientPolicy.ShedIsNotAnswered(clients.policy, t, key, x.now);
      reply := Respond(c, clients, key, handle, request, x);
  }
}
