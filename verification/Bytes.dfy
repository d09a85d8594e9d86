/** Byte strings, big-endian integers and the byte-wise order that RocksDB iterates in. */
module Bytes {

  type byte = b: int | 0 <= b < 256
  type Bytes = seq<byte>

  const TWO_16: nat := 0x1_0000
  const TWO_32: nat := 0x1_0000_0000
  const TWO_64: nat := 0x1_0000_0000_0000_0000

  function Pow256(k: nat): nat {
    if k == 0 then 1 else 256 * Pow256(k - 1)
  }

  lemma Widths()
    ensures Pow256(1) == 256 && Pow256(2) == TWO_16 && Pow256(4) == TWO_32 && Pow256(8) == TWO_64
  {
    assert Pow256(3) == 256 * TWO_16;
    assert Pow256(5) == 256 * TWO_32;
    assert Pow256(6) == TWO_16 * TWO_32;
    assert Pow256(7) == 256 * TWO_16 * TWO_32;
  }

  /** `binary.BigEndian.PutUintNN`: the low `k` bytes of `n`, most significant first. */
  function BigEndian(n: nat, k: nat): (s: Bytes)
    ensures |s| == k
  {
    if k == 0 then [] else BigEndian(n / 256, k - 1) + [n % 256]
  }

  /** `binary.BigEndian.UintNN`. */
  function FromBigEndian(s: Bytes): nat {
    if s == [] then 0 else 256 * FromBigEndian(s[..|s| - 1]) + s[|s| - 1]
  }

  lemma {:induction false} FromBigEndianBound(s: Bytes)
    ensures FromBigEndian(s) < Pow256(|s|)
  {
    if s != [] {
      FromBigEndianBound(s[..|s| - 1]);
    }
  }

  /** Reading back what was written yields the number exactly when it fits in `k` bytes. */
  lemma {:induction false} BigEndianRoundTrip(n: nat, k: nat)
    ensures FromBigEndian(BigEndian(n, k)) == n <==> n < Pow256(k)
  {
    FromBigEndianBound(BigEndian(n, k));
    if k > 0 {
      BigEndianRoundTrip(n / 256, k - 1);
      var s := BigEndian(n, k);
      assert s[..k - 1] == BigEndian(n / 256, k - 1);
    }
  }

  lemma {:induction false} FromBigEndianRoundTrip(s: Bytes)
    ensures BigEndian(FromBigEndian(s), |s|) == s
  {
    if s != [] {
      var init := s[..|s| - 1];
      FromBigEndianRoundTrip(init);
      assert FromBigEndian(s) / 256 == FromBigEndian(init);
      assert s == init + [s[|s| - 1]];
    }
  }

  /** Byte-wise lexicographic order; a proper prefix sorts first. */
  predicate LexLess(a: Bytes, b: Bytes) {
    b != [] && (a == [] || a[0] < b[0] || (a[0] == b[0] && LexLess(a[1..], b[1..])))
  }

  lemma {:induction false} LexTotal(a: Bytes, b: Bytes)
    ensures !LexLess(a, a)
    ensures a != b ==> (LexLess(a, b) <==> !LexLess(b, a))
  {
    if a != [] {
      LexTotal(a[1..], a[1..]);
    }
    if a != [] && b != [] {
      LexTotal(a[1..], b[1..]);
      assert a == [a[0]] + a[1..] && b == [b[0]] + b[1..];
    }
  }

  lemma {:induction false} LexTransitive(a: Bytes, b: Bytes, c: Bytes)
    requires LexLess(a, b) && LexLess(b, c)
    ensures LexLess(a, c)
  {
    if a != [] && a[0] == b[0] && b[0] == c[0] {
      LexTransitive(a[1..], b[1..], c[1..]);
    }
  }

  lemma {:induction false} LexCommonPrefix(p: Bytes, a: Bytes, b: Bytes)
    ensures LexLess(p + a, p + b) <==> LexLess(a, b)
  {
    if p == [] {
      assert p + a == a && p + b == b;
    } else {
      LexCommonPrefix(p[1..], a, b);
      assert (p + a)[1..] == p[1..] + a && (p + b)[1..] == p[1..] + b;
    }
  }

  /** On strings of one length the last byte only breaks ties. */
  lemma {:induction false} LexLastByte(x: Bytes, y: Bytes, a: byte, b: byte)
    requires |x| == |y|
    ensures LexLess(x + [a], y + [b]) <==> LexLess(x, y) || (x == y && a < b)
  {
    if x == [] {
      assert x + [a] == [a] && y + [b] == [b];
    } else {
      LexLastByte(x[1..], y[1..], a, b);
      assert (x + [a])[1..] == x[1..] + [a] && (y + [b])[1..] == y[1..] + [b];
      assert x == [x[0]] + x[1..] && y == [y[0]] + y[1..];
    }
  }

  /** Big-endian integers of one width sort as numbers. */
  lemma {:induction false} BigEndianOrder(m: nat, n: nat, k: nat)
    requires m < Pow256(k) && n < Pow256(k)
    ensures LexLess(BigEndian(m, k), BigEndian(n, k)) <==> m < n
  {
    if k > 0 {
      var m', n', x, y := m / 256, n / 256, BigEndian(m / 256, k - 1), BigEndian(n / 256, k - 1);
      assert m' < Pow256(k - 1) && n' < Pow256(k - 1);
      BigEndianOrder(m', n', k - 1);
      assert x == y <==> m' == n' by {
        BigEndianRoundTrip(m', k - 1);
        BigEndianRoundTrip(n', k - 1);
      }
      LexLastByte(x, y, m % 256, n % 256);
      assert m < n <==> m' < n' || (m' == n' && m % 256 < n % 256) by {
        assert m == 256 * m' + m % 256 && n == 256 * n' + n % 256;
      }
    }
  }

  /** A key carrying a prefix never sorts before the prefix itself. */
  lemma {:induction false} PrefixNotLess(p: Bytes, k: Bytes)
    requires p <= k
    ensures !LexLess(k, p)
  {
    if p != [] {
      PrefixNotLess(p[1..], k[1..]);
    }
  }

  /** Keys carrying a prefix are contiguous: a key at or past the prefix that lacks it is past them all. */
  lemma {:induction false} PrefixContiguous(p: Bytes, inside: Bytes, outside: Bytes)
    requires p <= inside && !(p <= outside) && !LexLess(outside, p)
    ensures LexLess(inside, outside)
  {
    if outside[0] == p[0] {
      assert !(p[1..] <= outside[1..]);
      PrefixContiguous(p[1..], inside[1..], outside[1..]);
    }
  }

  /** Against a bound of length n only the first n bytes of a longer key count. */
  lemma {:induction false} LexTruncate(k: Bytes, bound: Bytes)
    requires |bound| <= |k|
    ensures LexLess(k, bound) <==> LexLess(k[..|bound|], bound)
  {
    if bound != [] {
      LexTruncate(k[1..], bound[1..]);
      assert k[..|bound|][1..] == k[1..][..|bound| - 1];
    }
  }

  /** A key shorter than a bound sorts before it exactly when it is at most the bound cut to its length. */
  lemma {:induction false} LexShort(k: Bytes, bound: Bytes)
    requires |k| < |bound|
    ensures LexLess(k, bound) <==> LexLess(k, bound[..|k|]) || k == bound[..|k|]
  {
    if k != [] {
      LexShort(k[1..], bound[1..]);
      assert bound[..|k|][1..] == bound[1..][..|k| - 1];
      assert k == [k[0]] + k[1..] && bound[..|k|] == [bound[0]] + bound[..|k|][1..];
    }
  }

  /** A string after one number and not after the next, both cut to its length, is the next one cut. */
  lemma {:induction false} NothingBetween(n: nat, w: nat, s: Bytes)
    requires n + 1 < Pow256(w) && |s| <= w
    requires LexLess(BigEndian(n, w)[..|s|], s) && !LexLess(BigEndian(n + 1, w)[..|s|], s)
    ensures s == BigEndian(n + 1, w)[..|s|]
  {
    var a, b := BigEndian(n, w), BigEndian(n + 1, w);
    if |s| == w {
      var v := FromBigEndian(s);
      FromBigEndianRoundTrip(s);
      FromBigEndianBound(s);
      assert a[..w] == a && b[..w] == b;
      BigEndianOrder(n, v, w);
      BigEndianOrder(n + 1, v, w);
    } else {
      assert a[..|s|] == BigEndian(n / 256, w - 1)[..|s|];
      assert b[..|s|] == BigEndian((n + 1) / 256, w - 1)[..|s|];
      if (n + 1) / 256 == n / 256 + 1 {
        assert n / 256 + 1 < Pow256(w - 1);
        NothingBetween(n / 256, w - 1, s);
      }
    }
  }
}
