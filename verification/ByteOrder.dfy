/** Little-endian numbers of a fixed width, as `struct.pack` lays them out. */
module ByteOrder {

  type Byte = b: int | 0 <= b < 256

  const TWO_32: nat := 0x1_0000_0000
  const TWO_64: nat := 0x1_0000_0000_0000_0000

  function Pow256(k: nat): nat { if k == 0 then 1 else 256 * Pow256(k - 1) }

  function LittleEndian(n: nat, k: nat): (s: seq<Byte>)
    ensures |s| == k
  {
    if k == 0 then [] else [n % 256] + LittleEndian(n / 256, k - 1)
  }

  function FromLittleEndian(s: seq<Byte>): nat {
    if s == [] then 0 else s[0] + 256 * FromLittleEndian(s[1..])
  }

  lemma {:induction false} LittleEndianRoundTrip(n: nat, k: nat)
    requires n < Pow256(k)
    ensures FromLittleEndian(LittleEndian(n, k)) == n
  {
    if k > 0 {
      LittleEndianRoundTrip(n / 256, k - 1);
      assert LittleEndian(n, k)[1..] == LittleEndian(n / 256, k - 1);
    }
  }

  /** The byte at each place is that digit of the number to the base 256, the least one first. */
  lemma {:induction false} LittleEndianDigits(n: nat, k: nat, i: nat)
    requires i < k
    ensures Pow256(i) > 0 && LittleEndian(n, k)[i] == n / Pow256(i) % 256
    decreases i
  {
    if i > 0 {
      LittleEndianDigits(n / 256, k - 1, i - 1);
      DivideTwice(n, Pow256(i - 1));
    }
  }

  lemma DivideTwice(n: nat, d: nat)
    requires d > 0
    ensures n / 256 / d == n / (256 * d)
  {
    var q, r := n / 256 / d, n / 256 % d;
    assert n == 256 * (q * d + r) + n % 256;
    assert 256 * (q * d) == q * (256 * d);
    Quotient(n, 256 * d, q, 256 * r + n % 256);
  }

  lemma Quotient(n: nat, e: nat, q: nat, r: nat)
    requires r < e && n == q * e + r
    ensures n / e == q
  {
    var p, s := n / e, n % e;
    assert n == p * e + s && 0 <= s < e;
    if p < q { Multiple(q - p, e); Apart(q, p, e); }
    if p > q { Multiple(p - q, e); Apart(p, q, e); }
  }

  lemma Multiple(k: nat, e: nat)
    requires k > 0
    ensures k * e >= e
  {
  }

  lemma Apart(p: nat, q: nat, e: nat)
    requires q <= p
    ensures (p - q) * e == p * e - q * e
  {
  }

  lemma WordWidths()
    ensures Pow256(4) == TWO_32 && Pow256(8) == TWO_64
  {
    assert Pow256(2) == 0x1_0000;
    assert Pow256(4) == TWO_32;
    assert Pow256(6) == 0x1_0000_0000_0000;
  }
}
