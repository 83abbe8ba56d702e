/** The client's cookie store: a cookie is spent once and replaced from the reply. */
module NtsSession {
  import opened Wrappers
  import opened Bytes
  import opened Aead
  import opened Cookies
  import opened NtsExchange
  import opened NtsRoundTrip

  const TARGET_COOKIES: nat := 8

  /** How many placeholders to send with `held` cookies left. */
  function Asked(held: nat): (n: nat)
    ensures n <= 7
  {
    if held >= TARGET_COOKIES then 0 else if TARGET_COOKIES - held < 7 then TARGET_COOKIES - held else 7
  }

  /** How many of `n` fresh cookies a store of `held` has room for. */
  function Room(held: nat, n: nat): (k: nat)
    ensures k <= n
  {
    if held + n <= 2 * TARGET_COOKIES then n else if held <= 2 * TARGET_COOKIES then 2 * TARGET_COOKIES - held else 0
  }

  /** No value stands at two places. */
  predicate Distinct<T(==)>(s: seq<T>) {
    forall i, j | 0 <= i < j < |s| :: s[i] != s[j]
  }

  /** Appending keeps values apart if and only if what is appended is new and pairwise different. */
  lemma AppendedDistinct<T>(a: seq<T>, b: seq<T>)
    ensures Distinct(a + b) <==> Distinct(a) && Distinct(b) && forall x | x in b :: x !in a
  {
    var s := a + b;
    if Distinct(s) {
      forall i, j | 0 <= i < j < |a|
        ensures a[i] != a[j]
      {
        assert s[i] != s[j];
      }
      forall i, j | 0 <= i < j < |b|
        ensures b[i] != b[j]
      {
        assert s[|a| + i] != s[|a| + j];
      }
      forall i, j | 0 <= i < |a| && 0 <= j < |b|
        ensures a[i] != b[j]
      {
        assert s[i] != s[|a| + j];
      }
    } else {
      var i, j :| 0 <= i < j < |s| && s[i] == s[j];
      assert i < |a| <= j ==> s[j] in b;
      assert i >= |a| ==> b[i - |a|] == b[j - |a|];
    }
  }

  class NtsSession {
    const cipher: Cipher
    const keys: NtsKeys
    var cookies: seq<seq<byte>>
    var pendingUid: UniqueId

    /** Every cookie that ever entered the store, and which of them were sent. */
    ghost var stream: seq<seq<byte>>
    ghost var next: nat
    ghost var sent: seq<nat>

    /** The store holds the cookies from `next` on, and each was sent at most once, before that. */
    ghost predicate Valid()
      reads this
    {
      && next <= |stream| && cookies == stream[next..]
      && (forall i | 0 <= i < |sent| :: sent[i] < next)
      && (forall i, j | 0 <= i < j < |sent| :: sent[i] < sent[j])
    }

    constructor (cipher: Cipher, keys: NtsKeys, cookies: seq<seq<byte>>)
      ensures Valid() && this.cookies == cookies == stream && sent == [] && this.keys == keys && this.cipher == cipher
    {
      this.cipher, this.keys, this.cookies := cipher, keys, cookies;
      pendingUid := Zeros(32);
      stream, next, sent := cookies, 0, [];
    }

    /** Spend one cookie on a request and ask for enough to refill the store; none where it is empty. */
    method Protect(header: Header, uid: UniqueId, nonce: Nonce) returns (packet: Option<seq<byte>>)
      requires Valid()
      modifies this`cookies, this`pendingUid, this`next, this`sent
      ensures Valid()
      ensures old(cookies) == [] <==> packet.None?
      ensures packet.None? ==> cookies == [] && sent == old(sent)
      ensures packet.Some? ==>
                && pendingUid == uid && cookies == old(cookies)[1..] && sent == old(sent) + [old(next)]
                && stream[old(next)] == old(cookies)[0]
                && packet.value == Request(cipher, header, uid, old(cookies)[0], Asked(|cookies|), keys.c2s, nonce)
    {
      if cookies == [] {
        return None;
      }
      var cookie := cookies[0];
      cookies := cookies[1..];
      sent := sent + [next];
      next := next + 1;
      pendingUid := uid;
      var request := ProtectRequest(cipher, header, uid, cookie, Asked(|cookies|), keys.c2s, nonce);
      return Some(request);
    }

    /** Check a response to the request in flight and bank what cookies there is room for. */
    method Verify(packet: seq<byte>) returns (v: Verified)
      requires Valid()
      modifies this`cookies, this`stream
      ensures Valid() && v == VerifiedBy(cipher, packet, keys.s2c, pendingUid)
      ensures v.Failed? ==> cookies == old(cookies) && stream == old(stream)
      ensures v.Verified? ==>
                && cookies == old(cookies) + v.cookies[..Room(|old(cookies)|, |v.cookies|)]
                && stream == old(stream) + v.cookies[..Room(|old(cookies)|, |v.cookies|)]
    {
      v := VerifyResponse(cipher, packet, keys.s2c, pendingUid);
      if v.Verified? {
        Bank(v.cookies);
      }
    }

    /** Keep what there is room for. */
    method Bank(more: seq<seq<byte>>)
      requires Valid()
      modifies this`cookies, this`stream
      ensures Valid() && cookies == old(cookies) + more[..Room(|old(cookies)|, |more|)]
      ensures stream == old(stream) + more[..Room(|old(cookies)|, |more|)]
    {
      ghost var held, all := cookies, stream;
      for i := 0 to |more|
        invariant cookies == held + more[..Room(|held|, i)]
        invariant stream == all + more[..Room(|held|, i)]
      {
        if |cookies| < TARGET_COOKIES * 2 {
          cookies := cookies + [more[i]];
          stream := stream + [more[i]];
        }
      }
      assert stream[next..] == all[next..] + more[..Room(|held|, |more|)];
    }

    /** No cookie was sent twice so far. */
    ghost predicate SentOnce()
      requires Valid()
      reads this
    {
      forall a, b | 0 <= a < b < |sent| :: stream[sent[a]] != stream[sent[b]]
    }

    /** Spend every cookie held: each is sent, in order, and nothing else. */
    method SpendAll(header: Header, uids: seq<UniqueId>, nonces: seq<Nonce>)
      requires Valid() && |uids| == |nonces| == |cookies|
      modifies this`cookies, this`pendingUid, this`next, this`sent
      ensures Valid() && cookies == [] && |sent| == |old(sent)| + |old(cookies)| && sent[..|old(sent)|] == old(sent)
      ensures forall j | |old(sent)| <= j < |sent| ::
                sent[j] == old(next) + j - |old(sent)| && stream[sent[j]] == old(cookies)[j - |old(sent)|]
    {
      ghost var held, all := cookies, sent;
      for i := 0 to |uids|
        invariant Valid() && next == old(next) + i && cookies == held[i..]
        invariant |sent| == |all| + i && sent[..|all|] == all
        invariant forall j | |all| <= j < |sent| :: sent[j] == old(next) + j - |all|
      {
        var _ := Protect(header, uids[i], nonces[i]);
      }
    }

    /**
     The session does not remember that it accepted a reply: checked twice while there is
     room, its cookies are banked twice, and spending the store sends each of them twice.
     */
    method AcceptedTwice(packet: seq<byte>, ghost cs: seq<seq<byte>>, header: Header, uids: seq<UniqueId>,
                         nonces: seq<Nonce>)
      requires Valid() && VerifiedBy(cipher, packet, keys.s2c, pendingUid) == Verified(cs)
      requires cs != [] && |cookies| + 2 * |cs| <= 2 * TARGET_COOKIES
      requires |uids| == |nonces| == |cookies| + 2 * |cs|
      modifies this`cookies, this`stream, this`pendingUid, this`next, this`sent
      ensures Valid() && stream == old(stream) + cs + cs && !SentOnce()
    {
      ghost var held, all := cookies, sent;
      var _ := Verify(packet);
      var _ := Verify(packet);
      assert cookies == held + cs + cs;
      SpendAll(header, uids, nonces);
      ghost var a := |all| + |held|;
      assert stream[sent[a]] == cs[0] == stream[sent[a + |cs|]];
    }

    /** After a refusal, drop every cookie: none of them can be redeemed any more. */
    method ForgetCookies()
      requires Valid()
      modifies this`cookies, this`next
      ensures Valid() && cookies == [] && stream == old(stream) && sent == old(sent)
    {
      cookies := [];
      next := |stream|;
    }
  }

  /**
   The level after one served exchange from `held` cookies: a store that still had one
   left comes back to nine, one that spent its last to eight, a fuller one stays, and one
   resumed with more than there is room for loses one.
   */
  lemma RefillLevel(held: nat)
    requires 1 <= held
    ensures var left := held - 1;
            left + Room(left, Want(Asked(left)))
            == if held == 1 then 8 else if held <= 9 then 9 else if held <= 16 then held else left
  {
  }
}
