/** Bytes, 32-bit words and their serialisation, shared by every component. */
module Words {

  datatype Option<+T> = None | Some(value: T)

  type Byte = b: int | 0 <= b < 256

  type Bytes = seq<Byte>

  const WORDS: int := 0x1_0000_0000

  function Min(a: int, b: int): int {
    if a < b then a else b
  }

  /** A 32-bit unsigned integer. */
  type Word = w: int | 0 <= w < WORDS

  /** Unsigned 32-bit sums and differences wrap around. */
  function Plus(a: Word, b: int): Word {
    (a + b) % WORDS
  }

  function Minus(a: Word, b: int): Word {
    (a - b) % WORDS
  }

  /** Quotient and remainder are determined by any decomposition of the right shape. */
  lemma ModWords(x: int, q: int, r: int)
    requires x == q * WORDS + r && 0 <= r < WORDS
    ensures x % WORDS == r
  {
  }

  lemma PlusMinus(a: Word, b: int)
    ensures Minus(Plus(a, b), b) == a
    ensures Plus(Minus(a, b), b) == a
  {
    ModWords(Plus(a, b) - b, -((a + b) / WORDS), a);
    ModWords(Minus(a, b) + b, -((a - b) / WORDS), a);
  }

  lemma PlusPlus(a: Word, b: int, c: int)
    ensures Plus(Plus(a, b), c) == Plus(a, b + c)
    ensures Plus(b % WORDS, c) == (b + c) % WORDS
  {
    var s, q := a + b + c, (a + b + c) / WORDS;
    ModWords(Plus(a, b) + c, q - (a + b) / WORDS, s % WORDS);
    ModWords(b % WORDS + c, (b + c) / WORDS - b / WORDS, (b + c) % WORDS);
  }

  function BigEndian(w: Word): (b: Bytes)
    ensures |b| == 4
  {
    [w / 256 / 256 / 256, w / 256 / 256 % 256, w / 256 % 256, w % 256]
  }

  lemma BigEndianInjective(v: Word, w: Word)
    requires BigEndian(v) == BigEndian(w)
    ensures v == w
  {
    var a, b := BigEndian(v), BigEndian(w);
    assert a[0] == b[0] && a[1] == b[1] && a[2] == b[2] && a[3] == b[3];
  }

  function FromBigEndian(b: Bytes): Word
    requires |b| == 4
  {
    b[3] as int + 256 * (b[2] as int + 256 * (b[1] as int + 256 * b[0] as int))
  }

  lemma FromBigEndianInjective(b: Bytes, c: Bytes)
    requires |b| == |c| == 4 && FromBigEndian(b) == FromBigEndian(c)
    ensures b == c
  {
    var x, y := b[1] as int + 256 * b[0] as int, c[1] as int + 256 * c[0] as int;
    LastDigit(b[3], c[3], b[2] as int + 256 * x, c[2] as int + 256 * y);
    LastDigit(b[2], c[2], x, y);
    LastDigit(b[1], c[1], b[0], c[0]);
  }

  lemma LastDigit(d: Byte, e: Byte, x: int, y: int)
    requires d as int + 256 * x == e as int + 256 * y
    ensures d == e && x == y
  {
  }

  function LittleEndian(w: Word): (b: Bytes)
    ensures |b| == 4
  {
    [w % 256, w / 256 % 256, w / 256 / 256 % 256, w / 256 / 256 / 256]
  }

  function FromLittleEndian(b: Bytes): Word
    requires |b| == 4
  {
    b[0] as int + 256 * (b[1] as int + 256 * (b[2] as int + 256 * b[3] as int))
  }

  lemma LittleEndianInverse(w: Word)
    ensures FromLittleEndian(LittleEndian(w)) == w
  {
    var q := w / 256;
    var q' := q / 256;
    assert w == 256 * q + w % 256 && q == 256 * q' + q % 256 && q' == 256 * (q' / 256) + q' % 256;
  }

  /** Bitwise exclusive or. */
  function XorNat(a: nat, b: nat): nat
    decreases a + b
  {
    if a == 0 && b == 0 then 0 else (a + b) % 2 + 2 * XorNat(a / 2, b / 2)
  }

  function Pow2(n: nat): nat {
    if n == 0 then 1 else 2 * Pow2(n - 1)
  }

  lemma {:induction false} XorBound(a: nat, b: nat, n: nat)
    requires a < Pow2(n) && b < Pow2(n)
    ensures XorNat(a, b) < Pow2(n)
    decreases n
  {
    if n > 0 && (a > 0 || b > 0) {
      XorBound(a / 2, b / 2, n - 1);
    }
  }

  lemma XorStep(a: nat, b: nat)
    ensures XorNat(a, b) == (a + b) % 2 + 2 * XorNat(a / 2, b / 2)
  {
  }

  lemma {:induction false} XorZero(a: nat)
    ensures XorNat(0, a) == a
  {
    if a > 0 {
      XorZero(a / 2);
    }
  }

  lemma Parity(a: nat, b: nat, s: nat)
    ensures ((a + b) % 2 + 2 * s) / 2 == s
    ensures ((a + b) % 2 + 2 * s + b) % 2 == a % 2
  {
  }

  lemma {:induction false} XorNatTwice(a: nat, b: nat)
    ensures XorNat(XorNat(a, b), b) == a
    decreases a + b
  {
    if a > 0 || b > 0 {
      hide XorNat;
      var x := XorNat(a, b);
      XorStep(a, b);
      Parity(a, b, XorNat(a / 2, b / 2));
      XorNatTwice(a / 2, b / 2);
      XorStep(x, b);
    }
  }

  function Xor(a: Byte, b: Byte): Byte {
    assert Pow2(8) == 256;
    XorBound(a, b, 8);
    XorNat(a, b)
  }

  lemma XorTwice(a: Byte, b: Byte)
    ensures Xor(Xor(a, b), b) == a
  {
    XorNatTwice(a, b);
  }
}
