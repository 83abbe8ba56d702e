/** The value types the server's client table is made of. */
module ClientTypes {
  import opened Wrappers

  /** The width of the words a bucket and a slot number travel in. */
  const WORD: nat := 0x1_0000_0000

  /** No slot: the end of the recency list, and the handle of a free bucket. */
  const NIL: nat := 0xFFFF_FFFF

  /** A 32.32 fixed-point NTP timestamp as its raw 64-bit value; zero means unset. */
  type NtpTimestamp = t: nat | t < 0x1_0000_0000_0000_0000

  datatype RateLimitConfig = RateLimitConfig(
    intervalLog2: int,
    burst: nat,
    leakShift: nat,
    globalRateHz: real,
    globalBurst: real)

  datatype Disposition = Respond | KissOfDeath | Drop

  datatype ResponseMode = Basic | Interleaved(prevTransmit: NtpTimestamp)

  datatype ClientRecord = ClientRecord(
    lastSeen: real,
    tokens: real,
    requests: nat,
    responses: nat,
    dropped: nat,
    dropsSinceKod: nat,
    lastReceive: NtpTimestamp,
    lastTransmit: NtpTimestamp,
    lastReceiveSent: NtpTimestamp,
    interleavedNow: bool)

  function FreshRecord(now: real, burst: nat): ClientRecord {
    ClientRecord(now, burst as real, 0, 0, 0, 0, 0, 0, 0, false)
  }

  datatype ServerStats = ServerStats(
    requests: nat,
    responses: nat,
    droppedRateLimit: nat,
    kissOfDeath: nat,
    interleavedResponses: nat,
    refused: nat,
    evicted: nat)

  /** One client's storage: its key, its record and its place in the recency list. */
  datatype Slot<K> = Slot(key: K, record: ClientRecord, prev: nat, next: nat, generation: nat)

  /** A slot number together with the generation it carried when the handle was taken. */
  datatype ClientHandle = ClientHandle(slot: nat, generation: nat)

  /** The handle of a request that never reached a client record. */
  const INVALID: ClientHandle := ClientHandle(NIL, 0)
}
