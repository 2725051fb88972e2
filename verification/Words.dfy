/** Machine words, their bytes, and writes to byte buffers. */
module Words {
  type Byte = b: int | 0 <= b < 256

  const WORD_BITS := 64
  const WORD := 0x1_0000_0000_0000_0000

  type Word = w: int | 0 <= w < WORD

  /** The word that holds `n` modulo 2^64: wrapping arithmetic, and two's complement for negative `n`. */
  function Wrap(n: int): Word {
    n % WORD
  }

  /** The signed value of a word. */
  function Signed(w: Word): int {
    if w < WORD / 2 then w else w - WORD
  }

  function Pow2(n: nat): (r: nat)
    ensures r > 0
  {
    if n == 0 then 1 else 2 * Pow2(n - 1)
  }

  lemma {:induction false} Pow2Sum(m: nat, n: nat)
    ensures Pow2(m + n) == Pow2(m) * Pow2(n)
    decreases m
  {
    if m > 0 {
      Pow2Sum(m - 1, n);
      assert Pow2(m + n) == 2 * Pow2(m - 1 + n);
    }
  }

  lemma {:induction false} Pow2Grows(m: nat, n: nat)
    requires m <= n
    ensures Pow2(m) <= Pow2(n)
    decreases n
  {
    if m < n {
      Pow2Grows(m, n - 1);
    }
  }

  lemma Pow2Word()
    ensures Pow2(8) == 256 && Pow2(64) == WORD
  {
    assert Pow2(4) == 16;
    assert Pow2(8) == 256;
    Pow2Sum(8, 8);
    Pow2Sum(16, 16);
    Pow2Sum(32, 32);
  }

  // ----- little-endian bytes -----

  /** The `n` low bytes of `w`, least significant first. */
  function Bytes(w: nat, n: nat): (r: seq<Byte>)
    ensures |r| == n
  {
    if n == 0 then [] else [w % 256] + Bytes(w / 256, n - 1)
  }

  function Decode(bytes: seq<Byte>): nat {
    if bytes == [] then 0 else bytes[0] + 256 * Decode(bytes[1..])
  }

  /** The bytes decode to the low bits of the word. */
  lemma {:induction false} DecodeBytes(w: nat, n: nat)
    ensures Decode(Bytes(w, n)) == w % Pow2(8 * n)
    decreases n
  {
    if n > 0 {
      DecodeBytes(w / 256, n - 1);
      assert Bytes(w, n)[1..] == Bytes(w / 256, n - 1);
      Pow2Word();
      Pow2Sum(8, 8 * (n - 1));
      LowBits(w, Pow2(8 * (n - 1)));
    }
  }

  /** The bytes are in the order of their weights. */
  lemma {:induction false} ByteAt(w: nat, n: nat, k: nat)
    requires k < n
    ensures Bytes(w, n)[k] == w / Pow2(8 * k) % 256
    decreases n
  {
    if k > 0 {
      ByteAt(w / 256, n - 1, k - 1);
      Pow2Word();
      Pow2Sum(8, 8 * (k - 1));
      DivTwice(w, 256, Pow2(8 * (k - 1)));
    }
  }

  lemma DivTwice(w: nat, a: nat, b: nat)
    requires a > 0 && b > 0 && a * b > 0
    ensures w / a / b == w / (a * b)
  {
    var (q, r) := (w / a, w % a);
    var (p, s) := (q / b, q % b);
    MultiplesOrdered(a, s, b - 1);
    assert a * (b - 1) == a * b - a;
    assert q == b * p + s && w == a * q + r;
    assert a * (b * p + s) == (a * b) * p + a * s;
    DivUnique(w, a * b, p, a * s + r);
  }

  lemma LowBits(w: nat, p: nat)
    requires p > 0
    ensures w % (256 * p) == w % 256 + 256 * ((w / 256) % p)
  {
    var (q, r) := (w / 256, w % 256);
    var (a, b) := (q / p, q % p);
    assert q == p * a + b;
    assert w == 256 * q + r;
    assert w == (256 * p) * a + (256 * b + r);
    assert 0 <= 256 * b + r < 256 * p;
    DivUnique(w, 256 * p, a, 256 * b + r);
  }

  lemma DivUnique(w: int, d: int, a: int, r: int)
    requires d > 0 && w == d * a + r && 0 <= r < d
    ensures w / d == a && w % d == r
  {
    SmallMultiple(d, w / d - a, r - w % d) by {
      assert w == d * (w / d) + w % d;
    }
  }

  lemma WrapSum(a: int, b: int)
    ensures Wrap(Wrap(a) + b) == Wrap(a + b)
  {
    var (q, r) := (a / WORD, a % WORD);
    var (p, t) := ((r + b) / WORD, (r + b) % WORD);
    assert a + b == WORD * (q + p) + t;
    DivUnique(a + b, WORD, q + p, t);
  }

  /** A multiple of `d` between `-d` and `d` is zero. */
  lemma SmallMultiple(d: int, k: int, m: int)
    requires d > 0 && d * k == m && -d < m < d
    ensures k == 0 && m == 0
  {
    MultipleAtLeast(d, k);
    MultipleAtLeast(d, -k);
  }

  lemma MultipleAtLeast(d: int, k: int)
    requires d > 0
    ensures k >= 1 ==> d * k >= d
    ensures d * -k == -(d * k)
  {
  }

  lemma MultiplesOrdered(d: int, a: int, b: int)
    requires d >= 0 && a <= b
    ensures d * a <= d * b
  {
  }

  lemma NextMultiple(d: int, a: int)
    ensures d * (a + 1) == d * a + d
  {
  }

  lemma DivMod(x: nat, d: nat)
    requires d > 0
    ensures x == d * (x / d) + x % d && 0 <= x % d < d
  {
  }
}
