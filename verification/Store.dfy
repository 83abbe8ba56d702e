/** The daemon's durable state: sealed entries, cookies with tombstones, and a file that rebuilds them. */
module Store {
  import opened Wrappers
  import opened Bytes
  import opened Aead
  import opened StoreLog

  const COOKIES: nat := 1
  const NONCE_LEN: nat := 12
  const MOST_COOKIES: nat := 64

  datatype Error = NotHex | TooShort | NotAuthentic

  datatype Result<+T> = Ok(value: T) | Err(error: Error)

  // ----- hexadecimal -----

  type Nibble = n: int | 0 <= n < 16

  function HexDigit(n: Nibble): char {
    if n < 10 then ('0' as int + n) as char else ('a' as int + n - 10) as char
  }

  function ToDigit(c: char): (d: Option<int>)
    ensures d.Some? ==> 0 <= d.value < 16
  {
    if '0' <= c <= '9' then Some(c as int - '0' as int)
    else if 'a' <= c <= 'f' then Some(c as int - 'a' as int + 10)
    else if 'A' <= c <= 'F' then Some(c as int - 'A' as int + 10)
    else None
  }

  function HexPair(b: byte): string {
    [HexDigit(b / 16), HexDigit(b % 16)]
  }

  function Hex(s: seq<byte>): (h: string)
    ensures |h| == 2 * |s|
  {
    if s == [] then [] else Hex(s[..|s| - 1]) + HexPair(s[|s| - 1])
  }

  method HexOf(s: seq<byte>) returns (h: string)
    ensures h == Hex(s)
  {
    h := [];
    for i := 0 to |s|
      invariant h == Hex(s[..i])
    {
      assert s[..i + 1][..i] == s[..i];
      h := h + [HexDigit(s[i] / 16)];
      h := h + [HexDigit(s[i] % 16)];
    }
    assert s[..|s|] == s;
  }

  function Unhex(h: string): (s: Option<seq<byte>>) {
    if h == [] then Some([])
    else if |h| == 1 then None
    else
      match (Unhex(h[..|h| - 2]), ToDigit(h[|h| - 2]), ToDigit(h[|h| - 1]))
      case (Some(front), Some(hi), Some(lo)) => Some(front + [hi * 16 + lo])
      case _ => None
  }

  lemma {:induction false} OddIsNotHex(h: string)
    requires |h| % 2 == 1
    ensures Unhex(h) == None
  {
    if |h| > 1 {
      OddIsNotHex(h[..|h| - 2]);
    }
  }

  lemma {:induction false} BadFront(h: string, n: nat)
    requires 2 * n <= |h| && |h| % 2 == 0 && Unhex(h[..2 * n]) == None
    ensures Unhex(h) == None
    decreases |h|
  {
    if 2 * n < |h| {
      var front := h[..|h| - 2];
      assert front[..2 * n] == h[..2 * n];
      BadFront(front, n);
    } else {
      assert h[..2 * n] == h;
    }
  }

  method UnhexOf(h: string) returns (s: Option<seq<byte>>)
    ensures s == Unhex(h)
  {
    if |h| % 2 != 0 {
      OddIsNotHex(h);
      return None;
    }
    var out: seq<byte> := [];
    for i := 0 to |h| / 2
      invariant Unhex(h[..2 * i]) == Some(out)
    {
      var next := h[..2 * (i + 1)];
      assert next[..|next| - 2] == h[..2 * i];
      var hi, lo := ToDigit(h[2 * i]), ToDigit(h[2 * i + 1]);
      if hi.None? || lo.None? {
        assert Unhex(next) == None;
        BadFront(h, i + 1);
        return None;
      }
      out := out + [hi.value * 16 + lo.value];
    }
    assert h[..|h|] == h;
    s := Some(out);
  }

  lemma DigitRead(n: Nibble)
    ensures HexDigit(n) == "0123456789abcdef"[n] && ToDigit(HexDigit(n)) == Some(n)
  {
  }

  lemma UnhexPair(h: string, s: seq<byte>, b: byte)
    requires Unhex(h) == Some(s)
    ensures Unhex(h + HexPair(b)) == Some(s + [b])
  {
    var more := h + HexPair(b);
    DigitRead(b / 16);
    DigitRead(b % 16);
    assert more[..|more| - 2] == h;
  }

  lemma {:induction false} UnhexOfHex(s: seq<byte>)
    ensures Unhex(Hex(s)) == Some(s)
  {
    if s != [] {
      UnhexOfHex(s[..|s| - 1]);
      UnhexPair(Hex(s[..|s| - 1]), s[..|s| - 1], s[|s| - 1]);
      assert s == s[..|s| - 1] + [s[|s| - 1]];
    }
  }

  // ----- keys -----

  function Decimal(n: nat): (d: string)
    ensures d != [] && (|d| == 1 <==> n < 10)
  {
    if n < 10 then [HexDigit(n)] else Decimal(n / 10) + [HexDigit(n % 10)]
  }

  /** The number a string of decimal digits stands for. */
  function FromDecimal(d: string): int {
    if d == [] then 0 else 10 * FromDecimal(d[..|d| - 1]) + (d[|d| - 1] as int - '0' as int)
  }

  lemma {:induction false} DecimalMeans(n: nat)
    ensures FromDecimal(Decimal(n)) == n && forall c | c in Decimal(n) :: '0' <= c <= '9'
  {
    if n < 10 {
      assert Decimal(n)[..0] == [];
    } else {
      DecimalMeans(n / 10);
      assert Decimal(n)[..|Decimal(n)| - 1] == Decimal(n / 10);
    }
  }

  lemma {:induction false} DecimalsDiffer(a: nat, b: nat)
    requires Decimal(a) == Decimal(b)
    ensures a == b
  {
    assert Decimal(a)[|Decimal(a)| - 1] == HexDigit(a % 10);
    assert Decimal(b)[|Decimal(b)| - 1] == HexDigit(b % 10);
    if a >= 10 && b >= 10 {
      assert Decimal(a)[..|Decimal(a)| - 1] == Decimal(a / 10);
      assert Decimal(b)[..|Decimal(b)| - 1] == Decimal(b / 10);
      DecimalsDiffer(a / 10, b / 10);
    }
  }

  function CookieKey(server: string, i: nat): string {
    "cookie/" + server + "/" + Decimal(i)
  }

  function CookieSlot(server: string, i: nat): Slot {
    (COOKIES, CookieKey(server, i))
  }

  lemma DigitIsNoSlash(n: nat)
    requires n < 10
    ensures HexDigit(n) != '/'
  {
  }

  lemma {:induction false} DecimalHasNoSlash(n: nat)
    ensures '/' !in Decimal(n)
  {
    DigitIsNoSlash(n % 10);
    if n >= 10 {
      DecimalHasNoSlash(n / 10);
    }
  }

  /** What follows the last slash is what was put there. */
  lemma LastSlash(a: string, d: string, b: string, e: string)
    requires a + "/" + d == b + "/" + e && '/' !in d && '/' !in e
    ensures a == b && d == e
  {
    var s := a + "/" + d;
    assert s[|a|] == '/' && s[|b|] == '/';
    assert s[..|a|] == a && s[..|b|] == b && s[|a| + 1..] == d && s[|b| + 1..] == e;
  }

  /** No two cookie entries share a key, of one server or of two. */
  lemma CookieSlotsDiffer(server: string, i: nat, server': string, j: nat)
    requires CookieSlot(server, i) == CookieSlot(server', j)
    ensures server == server' && i == j
  {
    DecimalHasNoSlash(i);
    DecimalHasNoSlash(j);
    LastSlash("cookie/" + server, Decimal(i), "cookie/" + server', Decimal(j));
    assert ("cookie/" + server)[7..] == server && ("cookie/" + server')[7..] == server';
    DecimalsDiffer(i, j);
  }

  // ----- sealed values -----

  datatype Box = Box(cipher: Cipher, key: Key, codec: Codec)

  function Sealed(box: Box, nonce: seq<byte>, key: string, plain: seq<byte>): string {
    Hex(nonce + box.cipher.seal(box.key, [nonce, box.codec.encode(key)], plain))
  }

  function Unsealed(box: Box, stored: string, key: string): Result<seq<byte>> {
    match Unhex(stored)
    case None => Err(NotHex)
    case Some(raw) =>
      if |raw| < NONCE_LEN + TAG_LEN then Err(TooShort)
      else
        var nonce := raw[..NONCE_LEN];
        match box.cipher.open(box.key, [nonce, box.codec.encode(key)], raw[NONCE_LEN..])
        case None => Err(NotAuthentic)
        case Some(plain) => Ok(plain)
  }

  lemma SealedUnseals(box: Box, nonce: seq<byte>, key: string, plain: seq<byte>)
    requires Aead.Lawful(box.cipher) && |nonce| == NONCE_LEN
    ensures Sealed(box, nonce, key, plain) != [] && Unsealed(box, Sealed(box, nonce, key, plain), key) == Ok(plain)
  {
    var s := box.cipher.seal(box.key, [nonce, box.codec.encode(key)], plain);
    Opens(box.cipher, box.key, [nonce, box.codec.encode(key)], plain);
    UnhexOfHex(nonce + s);
    assert (nonce + s)[..NONCE_LEN] == nonce && (nonce + s)[NONCE_LEN..] == s;
  }

  lemma {:induction false} HexIsDigits(s: seq<byte>)
    ensures forall i | 0 <= i < |Hex(s)| :: 48 <= Hex(s)[i] as int < 128
  {
    if s != [] {
      HexIsDigits(s[..|s| - 1]);
    }
  }

  /** A sealed value is fifty-six digits and two for every octet of its plaintext. */
  lemma SealedLength(box: Box, nonce: seq<byte>, key: string, plain: seq<byte>)
    requires Aead.Lawful(box.cipher) && |nonce| == NONCE_LEN
    ensures |Sealed(box, nonce, key, plain)| == 2 * |plain| + 56
    ensures forall i | 0 <= i < 2 * |plain| + 56 :: 48 <= Sealed(box, nonce, key, plain)[i] as int < 128
  {
    Opens(box.cipher, box.key, [nonce, box.codec.encode(key)], plain);
    HexIsDigits(nonce + box.cipher.seal(box.key, [nonce, box.codec.encode(key)], plain));
  }

  /**
   A value sealed under a key that fits is loaded from its file if and only if its
   plaintext is shorter than 2^31 - 28 octets; a longer one makes the whole file
   unreadable, whatever else is in it.
   */
  lemma LoadsShortPlaintext(box: Box, es: seq<Entry>, slot: Slot, nonce: seq<byte>, plain: seq<byte>, more: seq<byte>,
                            values: map<Slot, string>)
    requires Aead.Lawful(box.cipher) && StoreLog.Lawful(box.codec) && Ascii(box.codec) && |nonce| == NONCE_LEN
    requires forall e | e in es :: Fits(box.codec, e)
    requires slot.0 < COLLECTIONS && |box.codec.encode(slot.1)| < StoreLog.WIDE
    ensures var e := Entry(slot, Sealed(box, nonce, slot.1, plain));
            var loaded := Replay(box.codec, Log(box.codec, es) + (Laid(box.codec, e) + more), values);
            && (Fits(box.codec, e) <==> |plain| < 0x8000_0000 - 28)
            && loaded == if |plain| < 0x8000_0000 - 28
                         then Replay(box.codec, more, PutAll(values, es)[slot := e.value]) else UnknownCollection
  {
    hide Sealed, Laid, Log, Parse;
    var e := Entry(slot, Sealed(box, nonce, slot.1, plain));
    SealedLength(box, nonce, slot.1, plain);
    PlainBytes(box.codec, e.value, 0);
    if |plain| < 0x8000_0000 - 28 {
      ReplayOfLog(box.codec, es, Laid(box.codec, e) + more, values);
      ParseOfLaid(box.codec, e, more);
    } else {
      LongTextLosesTheFile(box.codec, es, slot, e.value, more, values);
    }
  }

  function Lookup(values: map<Slot, string>, slot: Slot): Option<string> {
    if slot in values then Some(values[slot]) else None
  }

  /** What an entry holds: nothing, the empty tombstone, or a sealed value. */
  function Held(box: Box, values: map<Slot, string>, slot: Slot): Result<Option<seq<byte>>> {
    match Lookup(values, slot)
    case None => Ok(None)
    case Some(v) =>
      if v == [] then Ok(Some([]))
      else
        match Unsealed(box, v, slot.1)
        case Err(e) => Err(e)
        case Ok(plain) => Ok(Some(plain))
  }

  /** What comes after `out`. */
  function After(out: seq<seq<byte>>, r: Result<seq<seq<byte>>>): Result<seq<seq<byte>>> {
    if r.Err? then r else Ok(out + r.value)
  }

  lemma AfterJoins(out: seq<seq<byte>>, x: seq<byte>, r: Result<seq<seq<byte>>>)
    ensures After([], r) == r
    ensures After(out, After([x], r)) == After(out + [x], r)
    ensures After(out, Ok([])) == Ok(out)
  {
    assert out + [] == out;
    if r.Ok? {
      assert [] + r.value == r.value;
      assert out + ([x] + r.value) == out + [x] + r.value;
    }
  }

  predicate Stops(held: Result<Option<seq<byte>>>) {
    held == Ok(None) || held == Ok(Some([]))
  }

  /** The cookies held for a server from the `i`th on. */
  function CookiesFrom(box: Box, values: map<Slot, string>, server: string, i: nat): Result<seq<seq<byte>>>
    requires i <= MOST_COOKIES
    decreases MOST_COOKIES - i
  {
    if i == MOST_COOKIES then Ok([])
    else
      var held := Held(box, values, CookieSlot(server, i));
      if held.Err? then Err(held.error)
      else if Stops(held) then Ok([])
      else
        After([held.value.value], CookiesFrom(box, values, server, i + 1))
  }

  function UpToEmpty(cookies: seq<seq<byte>>): seq<seq<byte>> {
    if cookies == [] || cookies[0] == [] then [] else [cookies[0]] + UpToEmpty(cookies[1..])
  }

  function Kept(cookies: seq<seq<byte>>): (n: nat)
    ensures n <= |cookies| && n <= MOST_COOKIES
  {
    if |cookies| <= MOST_COOKIES then |cookies| else MOST_COOKIES
  }

  /** Each of the first `n` cookies is under its own entry. */
  ghost predicate Holds(box: Box, values: map<Slot, string>, server: string, cookies: seq<seq<byte>>, n: nat)
    requires n <= |cookies|
  {
    forall j: nat | j < n :: Held(box, values, CookieSlot(server, j)) == Ok(Some(cookies[j]))
  }

  /** Sealing one more keeps those before it. */
  lemma OneHeld(
      box: Box, values: map<Slot, string>, server: string, cookies: seq<seq<byte>>, i: nat, nonce: seq<byte>)
    requires Aead.Lawful(box.cipher) && |nonce| == NONCE_LEN
    requires i < |cookies| && Holds(box, values, server, cookies, i)
    ensures Holds(
              box, values[CookieSlot(server, i) := Sealed(box, nonce, CookieKey(server, i), cookies[i])],
              server, cookies, i + 1)
  {
    var slot := CookieSlot(server, i);
    var after := values[slot := Sealed(box, nonce, slot.1, cookies[i])];
    SealedUnseals(box, nonce, slot.1, cookies[i]);
    assert Held(box, after, slot) == Ok(Some(cookies[i]));
    forall j: nat | j < i
      ensures Held(box, after, CookieSlot(server, j)) == Held(box, values, CookieSlot(server, j))
    {
      if CookieSlot(server, j) == slot {
        CookieSlotsDiffer(server, j, server, i);
      }
    }
  }

  /** The cookies written are the cookies found, when the next entry stops the search. */
  lemma {:induction false} CookiesFound(box: Box, values: map<Slot, string>, server: string, cookies: seq<seq<byte>>,
                                        i: nat)
    requires i <= |cookies| <= MOST_COOKIES
    requires Holds(box, values, server, cookies, |cookies|)
    requires |cookies| < MOST_COOKIES ==> Stops(Held(box, values, CookieSlot(server, |cookies|)))
    ensures CookiesFrom(box, values, server, i) == Ok(UpToEmpty(cookies[i..]))
    decreases |cookies| - i
  {
    hide Held, CookieSlot;
    if i < |cookies| {
      assert Held(box, values, CookieSlot(server, i)) == Ok(Some(cookies[i]));
      CookiesFound(box, values, server, cookies, i + 1);
      assert cookies[i..][0] == cookies[i] && cookies[i..][1..] == cookies[i + 1..];
    }
  }

  /** A batch comes back whole exactly when it is not too many and none of them is empty. */
  lemma BatchComesBack(cookies: seq<seq<byte>>)
    ensures UpToEmpty(cookies[..Kept(cookies)]) == cookies <==> |cookies| <= MOST_COOKIES && [] !in cookies
  {
    UpToEmptyWhole(cookies[..Kept(cookies)]);
    if |cookies| <= MOST_COOKIES {
      assert cookies[..Kept(cookies)] == cookies;
    }
  }

  lemma {:induction false} UpToEmptyWhole(cookies: seq<seq<byte>>)
    ensures |UpToEmpty(cookies)| <= |cookies|
    ensures UpToEmpty(cookies) == cookies <==> [] !in cookies
  {
    if cookies != [] && cookies[0] != [] {
      UpToEmptyWhole(cookies[1..]);
      assert cookies == [cookies[0]] + cookies[1..];
      if UpToEmpty(cookies) == cookies {
        assert UpToEmpty(cookies)[1..] == cookies[1..];
      }
    }
  }

  /** One of a server's cookie entries, from the `low`th up to the `high`th. */
  predicate CookieOf(server: string, s: Slot, low: nat, high: nat) {
    exists i: nat | low <= i < high :: s == CookieSlot(server, i)
  }

  lemma InRange(server: string, i: nat, low: nat, high: nat)
    ensures CookieOf(server, CookieSlot(server, i), low, high) <==> low <= i < high
  {
    if CookieOf(server, CookieSlot(server, i), low, high) {
      var j: nat :| low <= j < high && CookieSlot(server, i) == CookieSlot(server, j);
      CookieSlotsDiffer(server, i, server, j);
    }
  }

  /** What changes only one server's cookie entries changes no other server's cookies. */
  lemma {:induction false} OthersKeepCookies(
      box: Box, before: map<Slot, string>, after: map<Slot, string>, server: string, other: string, i: nat)
    requires i <= MOST_COOKIES && other != server
    requires forall s | !CookieOf(server, s, 0, MOST_COOKIES) :: Lookup(after, s) == Lookup(before, s)
    ensures CookiesFrom(box, after, other, i) == CookiesFrom(box, before, other, i)
    decreases MOST_COOKIES - i
  {
    if i < MOST_COOKIES {
      var slot := CookieSlot(other, i);
      if CookieOf(server, slot, 0, MOST_COOKIES) {
        var j: nat :| j < MOST_COOKIES && slot == CookieSlot(server, j);
        CookieSlotsDiffer(other, i, server, j);
      }
      assert Lookup(after, slot) == Lookup(before, slot);
      OthersKeepCookies(box, before, after, server, other, i + 1);
    }
  }

  /** Only a server's cookie entries in a range may differ. */
  ghost predicate Elsewhere(before: map<Slot, string>, after: map<Slot, string>, server: string, low: nat, high: nat) {
    forall s | !CookieOf(server, s, low, high) :: Lookup(after, s) == Lookup(before, s)
  }

  lemma Outside(before: map<Slot, string>, after: map<Slot, string>, server: string, low: nat, high: nat, i: nat)
    requires Elsewhere(before, after, server, low, high) && !(low <= i < high)
    ensures Lookup(after, CookieSlot(server, i)) == Lookup(before, CookieSlot(server, i))
  {
    InRange(server, i, low, high);
  }

  /** Writing one more cookie's entry widens the range by it. */
  lemma OneSlot(
      first: map<Slot, string>, before: map<Slot, string>, server: string, low: nat, i: nat, value: string)
    requires low <= i && Elsewhere(first, before, server, low, i)
    ensures Elsewhere(first, before[CookieSlot(server, i) := value], server, low, i + 1)
  {
    var after := before[CookieSlot(server, i) := value];
    forall s | !CookieOf(server, s, low, i + 1)
      ensures Lookup(after, s) == Lookup(first, s)
    {
      assert low <= i < i + 1;
      assert s != CookieSlot(server, i);
      assert !CookieOf(server, s, low, i);
    }
  }

  lemma StillHolds(
      box: Box, between: map<Slot, string>, last: map<Slot, string>, server: string, cookies: seq<seq<byte>>)
    requires Holds(box, between, server, cookies, |cookies|)
    requires Elsewhere(between, last, server, |cookies|, MOST_COOKIES)
    ensures Holds(box, last, server, cookies, |cookies|)
  {
    forall j: nat | j < |cookies|
      ensures Held(box, last, CookieSlot(server, j)) == Ok(Some(cookies[j]))
    {
      Outside(between, last, server, |cookies|, MOST_COOKIES, j);
    }
  }

  lemma Joined(first: map<Slot, string>, between: map<Slot, string>, last: map<Slot, string>, server: string, keep: nat)
    requires keep <= MOST_COOKIES
    requires Elsewhere(first, between, server, 0, keep) && Elsewhere(between, last, server, keep, MOST_COOKIES)
    ensures Elsewhere(first, last, server, 0, MOST_COOKIES)
  {
    forall s | !CookieOf(server, s, 0, MOST_COOKIES)
      ensures !CookieOf(server, s, 0, keep) && !CookieOf(server, s, keep, MOST_COOKIES)
    {
    }
  }

  lemma Wider(first: map<Slot, string>, last: map<Slot, string>, server: string, low: nat, i: nat, high: nat)
    requires Elsewhere(first, last, server, low, i) && i <= high
    ensures Elsewhere(first, last, server, low, high)
  {
    forall s | !CookieOf(server, s, low, high)
      ensures !CookieOf(server, s, low, i)
    {
    }
  }

  /** The entries of the collections before `index`, and of that one all but those left. */
  ghost function Before(values: map<Slot, string>, index: nat, left: set<string>): map<Slot, string> {
    map s | s in values && (s.0 < index || (s.0 == index && s.1 !in left)) :: values[s]
  }

  ghost function Earlier(values: map<Slot, string>, index: nat): map<Slot, string> {
    map s | s in values && s.0 < index :: values[s]
  }

  /** With one key fewer left, one entry more is put. */
  lemma OneMore(values: map<Slot, string>, index: nat, keys: set<string>, key: string, es: seq<Entry>)
    requires key in keys && PutAll(map[], es) == Before(values, index, keys)
    ensures (index, key) in values ==>
              PutAll(map[], es + [Entry((index, key), values[(index, key)])]) == Before(values, index, keys - {key})
    ensures (index, key) !in values ==> PutAll(map[], es) == Before(values, index, keys - {key})
  {
    if (index, key) in values {
      var e := Entry((index, key), values[(index, key)]);
      assert (es + [e])[..|es|] == es;
      assert Before(values, index, keys)[e.slot := e.value] == Before(values, index, keys - {key});
    } else {
      assert Before(values, index, keys) == Before(values, index, keys - {key});
    }
  }

  class Store {
    const box: Box
    var values: map<Slot, string>
    var fields: seq<set<string>>

    /** Every entry with a value is declared. */
    ghost predicate Valid()
      reads this
    {
      && |fields| == COLLECTIONS
      && forall s | s in values :: s.0 < COLLECTIONS && s.1 in fields[s.0]
    }

    constructor (box: Box)
      ensures Valid() && values == map[] && this.box == box
    {
      this.box := box;
      values := map[];
      fields := [{}, {}, {}];
    }

    method EnsureField(slot: Slot)
      requires Valid() && slot.0 < COLLECTIONS
      modifies `fields
      ensures Valid() && slot.1 in fields[slot.0]
    {
      if slot.1 in fields[slot.0] {
        return;
      }
      fields := fields[slot.0 := fields[slot.0] + {slot.1}];
    }

    method PutRaw(slot: Slot, value: string)
      requires Valid() && slot.0 < COLLECTIONS
      modifies this
      ensures Valid() && values == old(values)[slot := value]
    {
      EnsureField(slot);
      values := values[slot := value];
    }

    method PutSealed(slot: Slot, plain: seq<byte>, nonce: seq<byte>)
      requires Valid() && slot.0 < COLLECTIONS && |nonce| == NONCE_LEN
      modifies this
      ensures Valid() && values == old(values)[slot := Sealed(box, nonce, slot.1, plain)]
    {
      var ciphertext := box.cipher.seal(box.key, [nonce, box.codec.encode(slot.1)], plain);
      var sealed := HexOf(nonce + ciphertext);
      PutRaw(slot, sealed);
    }

    method GetSealed(slot: Slot) returns (held: Result<Option<seq<byte>>>)
      requires Valid() && slot.0 < COLLECTIONS
      modifies `fields
      ensures Valid() && held == Held(box, values, slot)
    {
      EnsureField(slot);
      var v := Lookup(values, slot);
      if v.None? {
        return Ok(None);
      }
      if v.value == [] {
        return Ok(Some([]));
      }
      var raw := UnhexOf(v.value);
      if raw.None? {
        return Err(NotHex);
      }
      if |raw.value| < NONCE_LEN + TAG_LEN {
        return Err(TooShort);
      }
      var nonce := raw.value[..NONCE_LEN];
      var plain := box.cipher.open(box.key, [nonce, box.codec.encode(slot.1)], raw.value[NONCE_LEN..]);
      held := if plain.None? then Err(NotAuthentic) else Ok(plain);
    }

    /** Seal the cookies that are kept, each under its own entry. */
    method WriteCookies(server: string, cookies: seq<seq<byte>>, nonces: seq<seq<byte>>)
      requires Valid() && Aead.Lawful(box.cipher)
      requires |nonces| >= |cookies| && forall n | n in nonces :: |n| == NONCE_LEN
      modifies this
      ensures Valid() && Elsewhere(old(values), values, server, 0, |cookies|)
      ensures Holds(box, values, server, cookies, |cookies|)
    {
      for i := 0 to |cookies|
        invariant Valid() && Elsewhere(old(values), values, server, 0, i)
        invariant Holds(box, values, server, cookies, i)
      {
        var slot := CookieSlot(server, i);
        assert nonces[i] in nonces;
        OneSlot(old(values), values, server, 0, i, Sealed(box, nonces[i], slot.1, cookies[i]));
        OneHeld(box, values, server, cookies, i, nonces[i]);
        PutSealed(slot, cookies[i], nonces[i]);
      }
    }

    /** Turn older entries from `keep` on into tombstones, up to the first that already stops a search. */
    method RetireTail(server: string, keep: nat) returns (r: Result<()>)
      requires Valid() && keep <= MOST_COOKIES
      modifies this
      ensures Valid() && Elsewhere(old(values), values, server, keep, MOST_COOKIES)
      ensures r.Ok? && keep < MOST_COOKIES ==> Stops(Held(box, values, CookieSlot(server, keep)))
      ensures r.Err? ==> exists i: nat | keep <= i < MOST_COOKIES :: Held(box, old(values), CookieSlot(server, i)).Err?
    {
      var i := keep;
      while i < MOST_COOKIES
        invariant keep <= i <= MOST_COOKIES && Valid() && Elsewhere(old(values), values, server, keep, i)
        invariant keep < i ==> Lookup(values, CookieSlot(server, keep)) == Some([])
      {
        var slot := CookieSlot(server, i);
        var held := GetSealed(slot);
        if held.Err? || Stops(held) {
          Outside(old(values), values, server, keep, i, i);
          Wider(old(values), values, server, keep, i, MOST_COOKIES);
          return if held.Err? then Err(held.error) else Ok(());
        }
        OneSlot(old(values), values, server, keep, i, []);
        PutRaw(slot, []);
        i := i + 1;
      }
      r := Ok(());
    }

    /**
     Replace a server's cookies. What is found afterwards is the new batch, cut at sixty-four
     and at its first empty cookie, and never an older one; nothing else changes, and no other
     server's cookies. The only way to fail is an older entry that does not open.
     */
    method PutCookies(server: string, cookies: seq<seq<byte>>, nonces: seq<seq<byte>>) returns (r: Result<()>)
      requires Valid() && Aead.Lawful(box.cipher)
      requires |nonces| == |cookies| && forall n | n in nonces :: |n| == NONCE_LEN
      modifies this
      ensures Valid()
      ensures r.Ok? ==> CookiesFrom(box, values, server, 0) == Ok(UpToEmpty(cookies[..Kept(cookies)]))
      ensures r.Err? ==>
                exists i: nat | Kept(cookies) <= i < MOST_COOKIES :: Held(box, old(values), CookieSlot(server, i)).Err?
      ensures forall s | !CookieOf(server, s, 0, MOST_COOKIES) :: Lookup(values, s) == Lookup(old(values), s)
      ensures forall other | other != server ::
              CookiesFrom(box, values, other, 0) == CookiesFrom(box, old(values), other, 0)
    {
      var keep := Kept(cookies);
      WriteCookies(server, cookies[..keep], nonces);
      ghost var between := values;
      r := RetireTail(server, keep);
      Joined(old(values), between, values, server, keep);
      forall other | other != server
        ensures CookiesFrom(box, values, other, 0) == CookiesFrom(box, old(values), other, 0)
      {
        OthersKeepCookies(box, old(values), values, server, other, 0);
      }
      if r.Ok? {
        StillHolds(box, between, values, server, cookies[..keep]);
        CookiesFound(box, values, server, cookies[..keep], 0);
        assert cookies[..keep][0..] == cookies[..keep];
      } else {
        ghost var i: nat :| keep <= i < MOST_COOKIES && Held(box, between, CookieSlot(server, i)).Err?;
        Outside(old(values), between, server, 0, keep, i);
      }
    }

    method GetCookies(server: string) returns (r: Result<seq<seq<byte>>>)
      requires Valid()
      modifies `fields
      ensures Valid() && r == CookiesFrom(box, values, server, 0)
    {
      var out: seq<seq<byte>> := [];
      AfterJoins(out, [], CookiesFrom(box, values, server, 0));
      for i := 0 to MOST_COOKIES
        invariant Valid()
        invariant CookiesFrom(box, values, server, 0)
                  == After(out, CookiesFrom(box, values, server, i))
      {
        var held := GetSealed(CookieSlot(server, i));
        if held.Err? {
          return Err(held.error);
        }
        if Stops(held) {
          AfterJoins(out, [], Ok([]));
          return Ok(out);
        }
        AfterJoins(out, held.value.value, CookiesFrom(box, values, server, i + 1));
        out := out + [held.value.value];
      }
      AfterJoins(out, [], Ok([]));
      r := Ok(out);
    }

    /** Append one collection's entries. */
    method FlushCollection(index: nat, out: seq<byte>, ghost es: seq<Entry>)
      returns (blob: seq<byte>, ghost es': seq<Entry>)
      requires Valid() && index < COLLECTIONS
      requires out == Log(box.codec, es) && PutAll(map[], es) == Earlier(values, index) && OfMap(es, values)
      ensures blob == Log(box.codec, es') && PutAll(map[], es') == Earlier(values, index + 1) && OfMap(es', values)
    {
      blob, es' := out, es;
      var keys := fields[index];
      assert Before(values, index, keys) == Earlier(values, index);
      while keys != {}
        invariant blob == Log(box.codec, es') && OfMap(es', values)
        invariant PutAll(map[], es') == Before(values, index, keys)
        decreases |keys|
      {
        var key :| key in keys;
        OneMore(values, index, keys, key, es');
        keys := keys - {key};
        var value := Lookup(values, (index, key));
        if value.Some? {
          blob := AppendEntry(box.codec, blob, (index, key), value.value);
          LogGrows(box.codec, es', Entry((index, key), value.value));
          es' := es' + [Entry((index, key), value.value)];
        }
      }
      assert Before(values, index, {}) == Earlier(values, index + 1);
    }

    /** Write every entry out: put one after the other onto nothing, they make up the values. */
    method Flush() returns (blob: seq<byte>, ghost es: seq<Entry>)
      requires Valid()
      ensures blob == Log(box.codec, es) && PutAll(map[], es) == values && OfMap(es, values)
    {
      blob, es := [], [];
      for index := 0 to COLLECTIONS
        invariant blob == Log(box.codec, es) && PutAll(map[], es) == Earlier(values, index) && OfMap(es, values)
      {
        blob, es := FlushCollection(index, blob, es);
      }
      assert Earlier(values, COLLECTIONS) == values;
    }

    /** Replay a file onto the store. */
    method LoadFromDisk(blob: seq<byte>) returns (ok: bool)
      requires Valid()
      modifies this
      ensures Valid()
      ensures ok == Replay(box.codec, blob, old(values)).Loaded?
      ensures ok ==> values == Replay(box.codec, blob, old(values)).values
    {
      var rest := blob;
      while rest != []
        invariant Valid() && Replay(box.codec, rest, values) == Replay(box.codec, blob, old(values))
        decreases |rest|
      {
        var parsed := Parse(box.codec, rest);
        if parsed.Bad? {
          return false;
        }
        PutRaw(parsed.entry.slot, parsed.entry.value);
        rest := parsed.rest;
      }
      ok := true;
    }
  }


  /** A store flushed and opened again holds what it held, if and only if none of its keys and values is too long. */
  method Restart(s: Store) returns (t: Store, ok: bool)
    requires s.Valid() && StoreLog.Lawful(s.box.codec) && Strict(s.box.codec)
    ensures fresh(t) && t.Valid() && t.box == s.box
    ensures ok && t.values == s.values <==> AllFit(s.box.codec, s.values)
  {
    var blob, es := s.Flush();
    RebuildsMap(s.box.codec, es, s.values);
    t := new Store(s.box);
    ok := t.LoadFromDisk(blob);
  }
}
