/** Server cookies and the ring of master keys they are sealed under. */
module Cookies {
  import opened Wrappers
  import opened Bytes
  import opened Aead
  import opened ExtensionFields

  const COOKIE_NONCE_LEN: nat := 16
  const KEY_ID_LEN: nat := 4
  const COOKIE_LEN: nat := 100

  type Nonce = n: seq<byte> | |n| == 16 witness seq(16, i => 0)

  datatype MasterKey = MasterKey(id: nat, key: Key)

  datatype CookieError = Malformed | UnknownKeyId(id: nat) | Authentication | BadPayload

  datatype Redeemed = Redeemed(keys: NtsKeys) | Rejected(error: CookieError)

  // ----- the ring -----

  /** The newest `n` of `s`. */
  function Newest<T>(s: seq<T>, n: nat): seq<T> {
    if |s| <= n then s else s[|s| - n..]
  }

  /** The first key of that number. */
  function ById(keys: seq<MasterKey>, id: nat): (k: Option<MasterKey>)
    ensures k.Some? ==> k.value in keys && k.value.id == id
    ensures k.None? ==> forall m | m in keys :: m.id != id
  {
    if keys == [] then None
    else if keys[0].id == id then Some(keys[0])
    else
      assert keys == [keys[0]] + keys[1..];
      ById(keys[1..], id)
  }

  class KeyRing {
    var keys: seq<MasterKey>
    const maxRetained: nat

    ghost predicate Valid()
      reads this
    {
      maxRetained >= 1 && |keys| <= maxRetained
    }

    constructor (maxRetained: nat)
      ensures Valid() && keys == []
      ensures this.maxRetained == if maxRetained < 1 then 1 else maxRetained
    {
      keys := [];
      this.maxRetained := if maxRetained < 1 then 1 else maxRetained;
    }

    /** Install a new current key, retiring the oldest beyond the retention. */
    method RotateIn(key: MasterKey)
      requires Valid()
      modifies this
      ensures Valid() && keys == Newest(old(keys) + [key], maxRetained) && keys[|keys| - 1] == key
    {
      ghost var all := keys + [key];
      keys := keys + [key];
      while |keys| > maxRetained
        invariant |keys| <= |all| && keys == all[|all| - |keys|..]
        invariant keys == all || maxRetained <= |keys|
      {
        keys := keys[1..];
      }
    }

    method Find(id: nat) returns (k: Option<MasterKey>)
      ensures k == ById(keys, id)
    {
      assert keys[0..] == keys;
      for i := 0 to |keys|
        invariant ById(keys, id) == ById(keys[i..], id)
      {
        if keys[i].id == id {
          return Some(keys[i]);
        }
        assert keys[i..][1..] == keys[i + 1..];
      }
      return None;
    }
  }

  // ----- minting and redeeming -----

  function CookieHead(m: MasterKey, nonce: Nonce): (h: seq<byte>)
    ensures |h| == KEY_ID_LEN + COOKIE_NONCE_LEN
  {
    Octets(m.id, KEY_ID_LEN) + nonce
  }

  /** Header and sealed session keys. */
  function CookieUnder(c: Cipher, m: MasterKey, keys: NtsKeys, nonce: Nonce): seq<byte> {
    CookieHead(m, nonce) + c.seal(m.key, [CookieHead(m, nonce)], keys.c2s + keys.s2c)
  }

  /** A cookie under the ring's current key. */
  function Mint(c: Cipher, ring: seq<MasterKey>, keys: NtsKeys, nonce: Nonce): Option<seq<byte>> {
    if ring == [] then None else Some(CookieUnder(c, ring[|ring| - 1], keys, nonce))
  }

  function Redeem(c: Cipher, ring: seq<MasterKey>, cookie: seq<byte>): Redeemed {
    if |cookie| < KEY_ID_LEN + COOKIE_NONCE_LEN + 16 then Rejected(Malformed)
    else
      var id := Value(cookie[..KEY_ID_LEN]);
      match ById(ring, id)
      case None => Rejected(UnknownKeyId(id))
      case Some(m) =>
        var head, sealed := cookie[..KEY_ID_LEN + COOKIE_NONCE_LEN], cookie[KEY_ID_LEN + COOKIE_NONCE_LEN..];
        match c.open(m.key, [head], sealed)
        case None => Rejected(Authentication)
        case Some(payload) =>
          if |payload| != 64 then Rejected(BadPayload) else Redeemed(NtsKeys(payload[..32], payload[32..]))
  }

  /** The nonce in a cookie. */
  function NonceIn(cookie: seq<byte>): seq<byte> {
    if |cookie| < KEY_ID_LEN + COOKIE_NONCE_LEN then [] else cookie[KEY_ID_LEN..KEY_ID_LEN + COOKIE_NONCE_LEN]
  }

  lemma NonceOfCookie(c: Cipher, m: MasterKey, keys: NtsKeys, nonce: Nonce)
    ensures NonceIn(CookieUnder(c, m, keys, nonce)) == nonce
  {
    assert CookieHead(m, nonce)[KEY_ID_LEN..] == nonce;
  }

  const WIDE32: nat := 0x1_0000_0000

  lemma CookieShape(c: Cipher, m: MasterKey, keys: NtsKeys, nonce: Nonce)
    requires Lawful(c) && m.id < WIDE32
    ensures var cookie := CookieUnder(c, m, keys, nonce);
            && |cookie| == COOKIE_LEN && Value(cookie[..KEY_ID_LEN]) == m.id
            && cookie[..KEY_ID_LEN + COOKIE_NONCE_LEN] == CookieHead(m, nonce)
            && cookie[KEY_ID_LEN + COOKIE_NONCE_LEN..] == c.seal(m.key, [CookieHead(m, nonce)], keys.c2s + keys.s2c)
  {
    Opens(c, m.key, [CookieHead(m, nonce)], keys.c2s + keys.s2c);
    var cookie := CookieUnder(c, m, keys, nonce);
    assert cookie[..KEY_ID_LEN] == Octets(m.id, KEY_ID_LEN);
    Spans();
    OctetsFit(m.id, KEY_ID_LEN);
  }

  /** The keys in play where a cookie of `m` is redeemed from `ring`. */
  ghost function KeysOf(ring: seq<MasterKey>, m: MasterKey): set<Key> {
    (set x | x in ring :: x.key) + {m.key}
  }

  /**
   A cookie redeems to the session keys it was minted for in every ring where its master
   key is the first of its number; where ciphertexts are bound to the keys in play, in no
   other ring, and to no other session keys.
   */
  lemma RedeemsExactly(c: Cipher, m: MasterKey, keys: NtsKeys, nonce: Nonce, ring: seq<MasterKey>)
    requires Lawful(c) && m.id < WIDE32
    ensures ById(ring, m.id).Some? && ById(ring, m.id).value.key == m.key ==>
              Redeem(c, ring, CookieUnder(c, m, keys, nonce)) == Redeemed(keys)
    ensures KeyBound(c, KeysOf(ring, m)) && !(ById(ring, m.id).Some? && ById(ring, m.id).value.key == m.key) ==>
              Redeem(c, ring, CookieUnder(c, m, keys, nonce))
              == Rejected(if ById(ring, m.id).None? then UnknownKeyId(m.id) else Authentication)
  {
    hide Octets, Value;
    CookieShape(c, m, keys, nonce);
    var head, payload := CookieHead(m, nonce), keys.c2s + keys.s2c;
    Opens(c, m.key, [head], payload);
    assert payload[..32] == keys.c2s && payload[32..] == keys.s2c;
    var found := ById(ring, m.id);
    if KeyBound(c, KeysOf(ring, m)) && found.Some? && found.value.key != m.key {
      assert found.value.key in KeysOf(ring, m) && m.key in KeysOf(ring, m);
      assert c.open(found.value.key, [head], c.seal(m.key, [head], payload)) == None;
    }
  }

  /** The law can be met for every ring that is not larger than the number of tags. */
  lemma RingCanBeBound(ring: seq<MasterKey>, m: MasterKey) returns (c: Cipher)
    requires |ring| < Span(TAG_LEN)
    ensures Lawful(c) && KeyBound(c, KeysOf(ring, m))
  {
    var ks := KeyList(ring, m);
    c := KeysCanBeBound(ks);
    BindsFewer(c, (set k | k in ks), KeysOf(ring, m));
  }

  lemma KeyList(ring: seq<MasterKey>, m: MasterKey) returns (ks: seq<Key>)
    ensures |ks| == |ring| + 1 && forall k | k in KeysOf(ring, m) :: k in ks
  {
    ks := [m.key];
    for i := 0 to |ring|
      invariant |ks| == i + 1 && m.key in ks && forall j | 0 <= j < i :: ring[j].key in ks
    {
      ks := ks + [ring[i].key];
    }
  }

  ghost predicate Numbered(ring: seq<MasterKey>) {
    forall i, j | 0 <= i < j < |ring| :: ring[i].id != ring[j].id
  }

  lemma {:induction false} OnlyOne(ring: seq<MasterKey>, i: nat)
    requires Numbered(ring) && i < |ring|
    ensures ById(ring, ring[i].id) == Some(ring[i])
  {
    if i > 0 {
      OnlyOne(ring[1..], i - 1);
    }
  }

  /** In a uniquely numbered ring every retained key redeems its cookies. */
  lemma RetainedRedeems(c: Cipher, ring: seq<MasterKey>, i: nat, keys: NtsKeys, nonce: Nonce)
    requires Lawful(c) && Numbered(ring) && i < |ring| && ring[i].id < WIDE32
    ensures Redeem(c, ring, CookieUnder(c, ring[i], keys, nonce)) == Redeemed(keys)
  {
    OnlyOne(ring, i);
    RedeemsExactly(c, ring[i], keys, nonce, ring);
  }

  /** A ring in which a number means the same key as in `masters`, if anything. */
  ghost predicate RingOf(ring: seq<MasterKey>, masters: seq<MasterKey>) {
    ring != [] && Numbered(ring) && forall m | m in ring :: m in masters
  }

  /** With every number given out once, a cookie redeems where its key is held, and its number is unknown elsewhere. */
  lemma RedeemsWhereHeld(c: Cipher, masters: seq<MasterKey>, i: nat, ring: seq<MasterKey>, keys: NtsKeys, nonce: Nonce)
    requires Lawful(c) && Numbered(masters) && i < |masters| && masters[i].id < WIDE32 && RingOf(ring, masters)
    ensures Redeem(c, ring, CookieUnder(c, masters[i], keys, nonce))
            == if masters[i] in ring then Redeemed(keys) else Rejected(UnknownKeyId(masters[i].id))
  {
    hide CookieUnder, Octets, Value;
    var m := masters[i];
    CookieShape(c, m, keys, nonce);
    var found := ById(ring, m.id);
    if found.Some? {
      assert found.value in masters && found.value.id == m.id;
      assert found.value == m;
      RedeemsExactly(c, m, keys, nonce, ring);
    }
  }

  /** The keys after some rotations. */
  function Rotated(keys: seq<MasterKey>, n: nat, more: seq<MasterKey>): seq<MasterKey>
    decreases |more|
  {
    if more == [] then keys else Rotated(Newest(keys + [more[0]], n), n, more[1..])
  }

  lemma {:induction false} RotationKeepsNewest(keys: seq<MasterKey>, n: nat, more: seq<MasterKey>)
    requires n >= 1 && |keys| <= n
    ensures Rotated(keys, n, more) == Newest(keys + more, n)
    decreases |more|
  {
    if more == [] {
      assert keys + more == keys;
    } else {
      var all := keys + [more[0]];
      RotationKeepsNewest(Newest(all, n), n, more[1..]);
      NewestTwice(all, more[1..], n);
      assert keys + more == all + more[1..];
    }
  }

  lemma DropFront<T>(a: seq<T>, b: seq<T>, k: nat)
    requires k <= |b|
    ensures (a + b)[|a| + k..] == b[k..]
  {
  }

  lemma NewestTwice<T>(a: seq<T>, b: seq<T>, n: nat)
    ensures Newest(Newest(a, n) + b, n) == Newest(a + b, n)
  {
    if |a| > n {
      var front, kept := a[..|a| - n], a[|a| - n..];
      assert a + b == front + (kept + b);
      DropFront(front, kept + b, |b|);
    }
  }

  /** A cookie minted now outlives as many rotations as the ring retains older keys. */
  lemma CookieOutlivesRotations(c: Cipher, ring: seq<MasterKey>, n: nat, more: seq<MasterKey>, keys: NtsKeys,
                                nonce: Nonce)
    requires Lawful(c) && n >= 1 && 0 < |ring| <= n && |more| < n
    requires Numbered(ring + more) && ring[|ring| - 1].id < WIDE32
    ensures Mint(c, ring, keys, nonce).Some?
    ensures Redeem(c, Rotated(ring, n, more), Mint(c, ring, keys, nonce).value) == Redeemed(keys)
  {
    hide Redeem, CookieUnder, Rotated;
    RotationKeepsNewest(ring, n, more);
    var all := ring + more;
    var kept := Newest(all, n);
    var i := |ring| - 1 - (|all| - |kept|);
    assert kept[i] == ring[|ring| - 1];
    RetainedRedeems(c, kept, i, keys, nonce);
  }

  // ----- many at once -----

  /** The fields of one cookie per nonce. */
  function CookieFields(c: Cipher, m: MasterKey, keys: NtsKeys, nonces: seq<Nonce>): seq<byte> {
    if nonces == [] then []
    else
      CookieFields(c, m, keys, nonces[..|nonces| - 1])
      + FieldBytes(NTS_COOKIE, CookieUnder(c, m, keys, nonces[|nonces| - 1]))
  }

  lemma ConcatTwo(a: seq<byte>, b: seq<byte>)
    ensures Concat([a, b]) == a + b
  {
    assert [a, b][..1] == [a];
    assert |[a][..0]| == 0;
    assert Concat([a]) == Concat([a][..0]) + a;
  }

  /** Mint one cookie per nonce straight into `out`: the fields of repeated minting and writing. */
  method MintFieldsInto(c: Cipher, ring: seq<MasterKey>, keys: NtsKeys, nonces: seq<Nonce>, out: seq<byte>)
    returns (r: Option<seq<byte>>)
    ensures ring == [] ==> r == None
    ensures ring != [] ==> r == Some(out + CookieFields(c, ring[|ring| - 1], keys, nonces))
  {
    if ring == [] {
      return None;
    }
    var master := ring[|ring| - 1];
    var payload := keys.c2s + keys.s2c;
    var written := out;
    for i := 0 to |nonces|
      invariant written == out + CookieFields(c, master, keys, nonces[..i])
    {
      assert nonces[..i + 1][..i] == nonces[..i];
      var head := Octets(master.id, KEY_ID_LEN) + nonces[i];
      var sealed := c.seal(master.key, [head], payload);
      written := WriteFieldParts(written, NTS_COOKIE, [head, sealed]);
      ConcatTwo(head, sealed);
    }
    assert nonces[..|nonces|] == nonces;
    return Some(written);
  }
}
