/** Big-endian integers as the exported-name token carries them: the 16-bit
    mechanism-field length, the 32-bit NAME_LEN, and the OM_uint32
    accumulator of a long-form DER length. */
module BigEndian {
  import opened Glue

  const Two16: nat := 0x1_0000
  const Two32: nat := 0x1_0000_0000

  /** The value of two octets read most significant first. */
  function Be16(hi: byte, lo: byte): (n: nat)
    ensures n < Two16
  {
    hi * 0x100 + lo
  }

  /** The two octets that encode n most significant first. */
  function Be16Bytes(n: nat): (s: seq<byte>)
    requires n < Two16
    ensures |s| == 2 && Be16(s[0], s[1]) == n
  {
    [n / 0x100, n % 0x100]
  }

  /** Two octets are the encoding of the value they denote. */
  lemma Be16Canonical(hi: byte, lo: byte)
    ensures Be16Bytes(Be16(hi, lo)) == [hi, lo]
  {
    var n := Be16(hi, lo);
    assert n / 0x100 == hi && n % 0x100 == lo by {
      DivModUnique(n, 0x100, hi, lo);
    }
  }

  /** The value of four octets read most significant first. */
  function Be32(s: seq<byte>): (n: nat)
    requires |s| == 4
    ensures n < Two32
  {
    Be16(s[0], s[1]) * Two16 + Be16(s[2], s[3])
  }

  /** The four octets that encode n most significant first. */
  function Be32Bytes(n: nat): (s: seq<byte>)
    requires n < Two32
    ensures |s| == 4 && Be32(s) == n
  {
    Be16Bytes(n / Two16) + Be16Bytes(n % Two16)
  }

  /** Four octets are the encoding of the value they denote. */
  lemma Be32Canonical(s: seq<byte>)
    requires |s| == 4
    ensures Be32Bytes(Be32(s)) == s
  {
    var n := Be32(s);
    var hi, lo := Be16(s[0], s[1]), Be16(s[2], s[3]);
    DivModUnique(n, Two16, hi, lo);
    Be16Canonical(s[0], s[1]);
    Be16Canonical(s[2], s[3]);
  }

  /** Quotient and remainder are determined by any decomposition n == q * d + r. */
  lemma DivModUnique(n: nat, d: nat, q: nat, r: nat)
    requires 0 < d && r < d && n == q * d + r
    ensures n / d == q && n % d == r
  {
    var q', r' := n / d, n % d;
    assert q' * d + r' == q * d + r;
    if q' < q {
      AtLeastOnce(q - q', d);
    } else if q < q' {
      AtLeastOnce(q' - q, d);
    }
  }

  lemma AtLeastOnce(k: nat, d: nat)
    requires 1 <= k
    ensures k * d >= d
  {
    assert k * d == d + (k - 1) * d;
  }

  /** One step of the long-form loop: `(length << 8) | b` on an OM_uint32. */
  function Shift32(acc: nat, b: byte): (r: nat)
    ensures r < Two32
  {
    (acc * 0x100 + b) % Two32
  }

  /** The OM_uint32 the long-form loop accumulates over the octets s. */
  function BeWrap32(s: seq<byte>): (n: nat)
    ensures n < Two32
  {
    if s == [] then 0 else Shift32(BeWrap32(s[..|s| - 1]), s[|s| - 1])
  }

  /** The plain (unbounded) value of s read most significant first. */
  function BeValue(s: seq<byte>): nat
  {
    if s == [] then 0 else BeValue(s[..|s| - 1]) * 0x100 + s[|s| - 1]
  }

  /** The accumulator keeps exactly the value of the octets modulo 2^32:
      only the last four octets of a long-form length matter. */
  lemma {:induction false} BeWrap32IsValueMod(s: seq<byte>)
    ensures BeWrap32(s) == BeValue(s) % Two32
  {
    if s != [] {
      var init := s[..|s| - 1];
      BeWrap32IsValueMod(init);
      var v := BeValue(init);
      var b := s[|s| - 1];
      // (v % M) * 256 + b and v * 256 + b differ by a multiple of M
      var q := v / Two32;
      assert v == q * Two32 + v % Two32;
      assert v * 0x100 + b == (v % Two32 * 0x100 + b) + (q * 0x100) * Two32;
      ModAddMultiple(v % Two32 * 0x100 + b, q * 0x100, Two32);
    }
  }

  lemma ModAddMultiple(x: nat, k: nat, m: nat)
    requires 0 < m
    ensures (x + k * m) % m == x % m
  {
    DivModUnique(x + k * m, m, x / m + k, x % m);
  }
}
