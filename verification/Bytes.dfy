/** Octets and big-endian integers. */
module Bytes {
  import opened Arithmetic

  type byte = n: int | 0 <= n < 256

  function Zeros(n: nat): (z: seq<byte>)
    ensures |z| == n && forall i | 0 <= i < n :: z[i] == 0
  {
    seq(n, i => 0)
  }

  /** The big-endian value of some octets. */
  function Value(s: seq<byte>): (n: nat) {
    if s == [] then 0 else Value(s[..|s| - 1]) * 256 + s[|s| - 1]
  }

  lemma TwoOctets(s: seq<byte>)
    requires |s| == 2
    ensures Value(s) == s[0] as int * 256 + s[1] as int
  {
    assert s[..1][..0] == [];
    assert Value(s[..1]) == Value(s[..1][..0]) * 256 + s[0];
  }

  /** The low `width` octets of `n`, big-endian: what does not fit is cut off. */
  function Octets(n: nat, width: nat): (s: seq<byte>)
    ensures |s| == width
  {
    if width == 0 then [] else Octets(n / 256, width - 1) + [n % 256]
  }

  function Span(width: nat): (n: nat)
    ensures n >= 1
  {
    if width == 0 then 1 else 256 * Span(width - 1)
  }

  lemma {:induction false} ValueOfOctets(n: nat, width: nat)
    ensures Value(Octets(n, width)) == n % Span(width)
  {
    if width > 0 {
      var s := Octets(n, width);
      assert s[..width - 1] == Octets(n / 256, width - 1);
      ValueOfOctets(n / 256, width - 1);
      ModNested(n, Span(width - 1));
    }
  }

  lemma ModNested(n: nat, m: nat)
    requires m >= 1
    ensures (n / 256 % m) * 256 + n % 256 == n % (256 * m)
  {
    var q, r := n / 256, n % 256;
    var a, b := q / m, q % m;
    assert n == q * 256 + r && q == a * m + b;
    assert n == a * (256 * m) + (b * 256 + r) by {
      assert (a * m + b) * 256 == a * (256 * m) + b * 256;
    }
    assert b * 256 + r < 256 * m;
    ModUnique(n, 256 * m, a, b * 256 + r);
  }

  lemma Spans()
    ensures Span(1) == 256 && Span(2) == 0x1_0000 && Span(4) == 0x1_0000_0000 && Span(8) == 0x1_0000_0000_0000_0000
  {
    assert Span(1) == 256 * Span(0) && Span(2) == 256 * Span(1) && Span(3) == 256 * Span(2) && Span(4) == 256 * Span(3);
    assert Span(5) == 256 * Span(4) && Span(6) == 256 * Span(5) && Span(7) == 256 * Span(6) && Span(8) == 256 * Span(7);
  }

  /** What fits its width is read back. */
  lemma OctetsFit(n: nat, width: nat)
    requires n < Span(width)
    ensures Value(Octets(n, width)) == n
  {
    ValueOfOctets(n, width);
  }

  /** What does not fit is written as what is left of it. */
  lemma OctetsWrap(n: nat, width: nat)
    ensures Octets(n, width) == Octets(n % Span(width), width)
  {
    ValueOfOctets(n, width);
    OctetsOfValue(Octets(n, width));
  }

  /** And what was read is written back. */
  lemma {:induction false} OctetsOfValue(s: seq<byte>)
    ensures Octets(Value(s), |s|) == s && Value(s) < Span(|s|)
  {
    if s != [] {
      var n := |s| - 1;
      OctetsOfValue(s[..n]);
      var v := Value(s[..n]);
      assert (v * 256 + s[n]) / 256 == v && (v * 256 + s[n]) % 256 == s[n];
      assert v * 256 + s[n] < 256 * Span(n);
    }
  }
}
