/**
 Bytes and the byte-order accessors of tds/util.h, as pure encodings.
 "Host order" is little-endian, "network order" is big-endian.
 Every encoder truncates to its width, as the C++ integer conversions do.
 */
module Bytes {

  type byte = b: int | 0 <= b < 256

  function Pow(b: nat, e: nat): (p: nat)
    ensures b > 0 ==> p > 0
  {
    if e == 0 then 1 else b * Pow(b, e - 1)
  }

  /** The `width` low-order bytes of n, least significant first. */
  function LE(n: nat, width: nat): (s: seq<byte>)
    ensures |s| == width
  {
    if width == 0 then [] else [n % 256] + LE(n / 256, width - 1)
  }

  /** The same bytes, most significant first. */
  function BE(n: nat, width: nat): (s: seq<byte>)
    ensures |s| == width
  {
    if width == 0 then [] else BE(n / 256, width - 1) + [n % 256]
  }

  function FromLE(s: seq<byte>): nat {
    if s == [] then 0 else s[0] + 256 * FromLE(s[1..])
  }

  function FromBE(s: seq<byte>): nat {
    if s == [] then 0 else FromBE(s[..|s| - 1]) * 256 + s[|s| - 1]
  }

  /** Reading back what was written yields the value reduced to the width. */
  lemma {:induction false} FromLEOfLE(n: nat, width: nat)
    ensures FromLE(LE(n, width)) == n % Pow(256, width)
  {
    if width > 0 {
      var p := Pow(256, width - 1);
      FromLEOfLE(n / 256, width - 1);
      assert LE(n, width)[1..] == LE(n / 256, width - 1);
      ModSplit(n, p);
    }
  }

  lemma {:induction false} FromBEOfBE(n: nat, width: nat)
    ensures FromBE(BE(n, width)) == n % Pow(256, width)
  {
    if width > 0 {
      var p := Pow(256, width - 1);
      FromBEOfBE(n / 256, width - 1);
      assert BE(n, width)[..width - 1] == BE(n / 256, width - 1);
      ModSplit(n, p);
    }
  }

  lemma ModSplit(n: nat, p: nat)
    requires p > 0
    ensures n % (256 * p) == n % 256 + 256 * ((n / 256) % p)
  {
    var q, r := n / 256, n % 256;
    var q1, r1 := q / p, q % p;
    assert q == p * q1 + r1;
    assert n == (256 * p) * q1 + (r + 256 * r1) by {
      assert 256 * (p * q1) == (256 * p) * q1;
    }
    assert 0 <= r + 256 * r1 < 256 * p;
    ModUnique(n, 256 * p, q1, r + 256 * r1);
  }

  lemma ModUnique(n: int, d: int, q: int, r: int)
    requires d > 0 && 0 <= r < d && n == d * q + r
    ensures n % d == r && n / d == q
  {
    var q', r' := n / d, n % d;
    assert n == d * q' + r';
    assert d * (q - q') == r' - r;
    if q > q' {
      MulAtLeast(d, q - q');
    } else if q < q' {
      MulAtLeast(d, q' - q);
    }
  }

  lemma MulAtLeast(d: nat, k: nat)
    requires k > 0
    ensures d * k >= d
  {
  }

  /** A number survives a field exactly when it fits. */
  lemma FitsExactly(n: nat, width: nat)
    ensures FromLE(LE(n, width)) == n <==> n < Pow(256, width)
  {
    FromLEOfLE(n, width);
    if n < Pow(256, width) {
      ModUnique(n, Pow(256, width), 0, n);
    }
  }

  /** The widths the wire format uses, as a value-preserving round trip. */
  lemma RoundTrip(n: nat, width: nat)
    requires n < Pow(256, width)
    ensures FromLE(LE(n, width)) == n && FromBE(BE(n, width)) == n
  {
    FromLEOfLE(n, width);
    FromBEOfBE(n, width);
    ModUnique(n, Pow(256, width), 0, n);
  }

  lemma Widths()
    ensures Pow(256, 0) == 1 && Pow(256, 1) == 0x100 && Pow(256, 2) == 0x1_0000
    ensures Pow(256, 4) == 0x1_0000_0000 && Pow(256, 8) == 0x1_0000_0000_0000_0000
  {
    assert Pow(256, 0) == 1;
    assert Pow(256, 1) == 256;
    assert Pow(256, 2) == 256 * 256;
    assert Pow(256, 3) == 256 * 256 * 256;
    assert Pow(256, 4) == 256 * (256 * 256 * 256);
    assert Pow(256, 5) == 256 * Pow(256, 4);
    assert Pow(256, 6) == 256 * Pow(256, 5);
    assert Pow(256, 7) == 256 * Pow(256, 6);
    assert Pow(256, 8) == 256 * Pow(256, 7);
  }

  /** Equal-width little-endian strings are equal exactly when their values are. */
  lemma {:induction false} LEInjective(a: seq<byte>, b: seq<byte>)
    requires |a| == |b| && FromLE(a) == FromLE(b)
    ensures a == b
  {
    if a != [] {
      assert a[0] == b[0] && FromLE(a[1..]) == FromLE(b[1..]);
      LEInjective(a[1..], b[1..]);
      assert a == [a[0]] + a[1..] && b == [b[0]] + b[1..];
    }
  }

  lemma Assoc<T>(a: seq<T>, b: seq<T>, c: seq<T>)
    ensures a + b + c == a + (b + c)
  {
  }

  lemma Assoc3<T>(a: seq<T>, b: seq<T>, c: seq<T>, d: seq<T>)
    ensures a + b + c + d == a + (b + (c + d))
  {
  }

  lemma Assoc4<T>(a: seq<T>, b: seq<T>, c: seq<T>, d: seq<T>, e: seq<T>)
    ensures a + b + c + d + e == a + (b + (c + (d + e)))
  {
  }

  lemma Cut<T>(a: seq<T>, b: seq<T>)
    ensures (a + b)[..|a|] == a && (a + b)[|a|..] == b
  {
  }

  lemma SliceOfSlice<T>(s: seq<T>, at: nat, n: nat, i: nat, k: nat)
    requires at + n <= |s| && i + k <= n
    ensures s[at..at + n][i..i + k] == s[at + i..at + i + k]
  {
    var a, b := s[at..at + n][i..i + k], s[at + i..at + i + k];
    forall j | 0 <= j < |a|
      ensures a[j] == b[j]
    {
    }
  }

  /** A slice of a sequence that is known in three parts. */
  lemma Middle<T>(a: seq<T>, b: seq<T>, c: seq<T>)
    ensures (a + b + c)[|a|..|a| + |b|] == b
  {
  }
}
