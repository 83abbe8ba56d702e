/** Authenticated encryption as far as the protocol relies on it. */
module Aead {
  import opened Wrappers
  import opened Bytes

  type Key = k: seq<byte> | |k| == 32 witness seq(32, i => 0)

  /** The keys of a session: client to server, and server to client. */
  datatype NtsKeys = NtsKeys(c2s: Key, s2c: Key)

  /** A cipher that seals under a key and associated data, and opens what was sealed. */
  datatype Cipher = Cipher(
    seal: (Key, seq<seq<byte>>, seq<byte>) -> seq<byte>,
    open: (Key, seq<seq<byte>>, seq<byte>) -> Option<seq<byte>>)

  const TAG_LEN: nat := 16

  type Tag = t: seq<byte> | |t| == 16 witness seq(16, i => 0)

  /** Opening undoes sealing, and sealing adds one tag. */
  ghost predicate Lawful(c: Cipher) {
    forall k: Key, aad: seq<seq<byte>>, p: seq<byte> ::
      c.open(k, aad, c.seal(k, aad, p)) == Some(p) && |c.seal(k, aad, p)| == |p| + TAG_LEN
  }

  /** Of some keys, what was sealed under one does not open under another. */
  ghost predicate KeyBound(c: Cipher, keys: set<Key>) {
    forall k, k', aad: seq<seq<byte>>, p: seq<byte> | k in keys && k' in keys && k != k' ::
      c.open(k', aad, c.seal(k, aad, p)) == None
  }

  lemma Opens(c: Cipher, k: Key, aad: seq<seq<byte>>, p: seq<byte>)
    requires Lawful(c)
    ensures c.open(k, aad, c.seal(k, aad, p)) == Some(p) && |c.seal(k, aad, p)| == |p| + TAG_LEN
  {
  }

  // ----- the laws can be met -----

  /** A tag that depends on the key alone, after the plaintext. */
  function Tagged(tag: Key -> Tag): Cipher {
    Cipher(
      (k, aad, p) => p + tag(k),
      (k, aad, s) => if |s| < TAG_LEN || s[|s| - TAG_LEN..] != tag(k) then None else Some(s[..|s| - TAG_LEN]))
  }

  /** It is lawful, and it binds every set of keys whose tags differ. */
  lemma TaggedMeetsLaws(tag: Key -> Tag, keys: set<Key>)
    ensures Lawful(Tagged(tag))
    ensures (forall k, k' | k in keys && k' in keys && k != k' :: tag(k) != tag(k')) ==> KeyBound(Tagged(tag), keys)
  {
    var c := Tagged(tag);
    forall k: Key, k': Key, aad: seq<seq<byte>>, p: seq<byte>
      ensures c.open(k', aad, c.seal(k, aad, p)) == if tag(k) == tag(k') then Some(p) else None
      ensures |c.seal(k, aad, p)| == |p| + TAG_LEN
    {
      assert (p + tag(k))[..|p|] == p && (p + tag(k))[|p|..] == tag(k);
    }
  }

  lemma BindsFewer(c: Cipher, more: set<Key>, keys: set<Key>)
    requires KeyBound(c, more) && forall k | k in keys :: k in more
    ensures KeyBound(c, keys)
  {
  }

  function Place(ks: seq<Key>, k: Key): (i: nat)
    ensures k in ks ==> i < |ks| && ks[i] == k
  {
    if ks == [] || ks[0] == k then 0 else 1 + Place(ks[1..], k)
  }

  /** As many keys as there are tags can be bound at once. */
  lemma KeysCanBeBound(ks: seq<Key>) returns (c: Cipher)
    requires |ks| <= Span(TAG_LEN)
    ensures Lawful(c) && KeyBound(c, set k | k in ks)
  {
    var tag: Key -> Tag := k => Octets(Place(ks, k), TAG_LEN);
    TaggedMeetsLaws(tag, set k | k in ks);
    forall k, k' | k in ks && k' in ks && k != k'
      ensures tag(k) != tag(k')
    {
      OctetsFit(Place(ks, k), TAG_LEN);
      OctetsFit(Place(ks, k'), TAG_LEN);
    }
    c := Tagged(tag);
  }
}
