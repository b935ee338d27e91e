/** Machine words and their bytes: a `uint32_t` read from and written to big-endian bytes. */
module Octets {
  import opened Words

  function Bits(b: Byte): bv8 {
    b as bv8
  }

  function Value(x: bv8): Byte {
    x as int
  }

  lemma BitsOfValue(x: bv8)
    ensures Bits(Value(x)) == x
  {
  }

  function Flag(on: bool, mask: bv8): bv8 {
    if on then mask else 0
  }

  function Digit(on: bool, weight: nat): nat {
    if on then weight else 0
  }

  /** Eight binary digits, as a bit vector and as a number. */
  lemma DigitsMatch(a: bool, b: bool, c: bool, d: bool, e: bool, f: bool, g: bool, h: bool)
    ensures
      var x :=
        Flag(a, 128) | Flag(b, 64) | Flag(c, 32) | Flag(d, 16) | Flag(e, 8) | Flag(f, 4) | Flag(g, 2) | Flag(h, 1);
      x as int == Digit(a, 128) + Digit(b, 64) + Digit(c, 32) + Digit(d, 16) + Digit(e, 8) + Digit(f, 4) + Digit(g, 2)
                  + Digit(h, 1)
  {
  }

  predicate HasDigit(b: Byte, weight: nat)
    requires weight > 0
  {
    b / weight % 2 == 1
  }

  /** The largest multiple of `weight` in a byte. */
  function Whole(b: Byte, weight: nat): nat
    requires weight > 0
  {
    weight * (b / weight)
  }

  lemma Halve(b: Byte, weight: nat)
    requires weight in {1, 2, 4, 8, 16, 32, 64, 128}
    ensures Whole(b, weight) == Whole(b, 2 * weight) + Digit(HasDigit(b, weight), weight)
  {
  }

  lemma DigitSum(b: Byte)
    ensures
      b == Digit(HasDigit(b, 128), 128) + Digit(HasDigit(b, 64), 64) + Digit(HasDigit(b, 32), 32)
           + Digit(HasDigit(b, 16), 16) + Digit(HasDigit(b, 8), 8) + Digit(HasDigit(b, 4), 4)
           + Digit(HasDigit(b, 2), 2) + Digit(HasDigit(b, 1), 1)
  {
    assert Whole(b, 1) == b && Whole(b, 256) == 0;
    hide HasDigit;
    hide Digit;
    hide Whole;
    Halve(b, 1);
    Halve(b, 2);
    Halve(b, 4);
    Halve(b, 8);
    Halve(b, 16);
    Halve(b, 32);
    Halve(b, 64);
    Halve(b, 128);
  }

  lemma ByDigits(b: Byte) returns (x: bv8)
    ensures x as int == b
  {
    hide HasDigit;
    var (p, q, r, s) := (HasDigit(b, 128), HasDigit(b, 64), HasDigit(b, 32), HasDigit(b, 16));
    var (t, u, v, w) := (HasDigit(b, 8), HasDigit(b, 4), HasDigit(b, 2), HasDigit(b, 1));
    x := Flag(p, 128) | Flag(q, 64) | Flag(r, 32) | Flag(s, 16) | Flag(t, 8) | Flag(u, 4) | Flag(v, 2) | Flag(w, 1);
    DigitsMatch(p, q, r, s, t, u, v, w);
    hide Flag;
    DigitSum(b);
    hide Digit;
  }

  lemma FromValue(x: bv8, b: Byte)
    requires x as int == b
    ensures x == Bits(b)
  {
  }

  lemma ValueOfBits(b: Byte)
    ensures Value(Bits(b)) == b
  {
    var x := ByDigits(b);
    FromValue(x, b);
    hide Bits;
  }

  function Join(a: bv8, b: bv8, c: bv8, d: bv8): bv32 {
    ((a as bv32) << 24) | ((b as bv32) << 16) | ((c as bv32) << 8) | (d as bv32)
  }

  function Octet(v: bv32, shift: bv6): bv8
    requires shift <= 24
  {
    ((v >> shift) & 0xFF) as bv8
  }

  lemma JoinOctets(v: bv32, a: bv8, b: bv8, c: bv8, d: bv8)
    ensures Join(Octet(v, 24), Octet(v, 16), Octet(v, 8), Octet(v, 0)) == v
    ensures
      var w := Join(a, b, c, d);
      Octet(w, 24) == a && Octet(w, 16) == b && Octet(w, 8) == c && Octet(w, 0) == d
  {
  }

  /** Four bytes read as a big-endian `uint32_t`. */
  function Load(b: Bytes): bv32
    requires |b| == 4
  {
    Join(Bits(b[0]), Bits(b[1]), Bits(b[2]), Bits(b[3]))
  }

  /** A `uint32_t` written as four big-endian bytes. */
  function Stored(v: bv32): (b: Bytes)
    ensures |b| == 4
  {
    [Value(Octet(v, 24)), Value(Octet(v, 16)), Value(Octet(v, 8)), Value(Octet(v, 0))]
  }

  lemma LoadStored(v: bv32)
    ensures Load(Stored(v)) == v
  {
    JoinOctets(v, 0, 0, 0, 0);
    BitsOfValue(Octet(v, 24));
    BitsOfValue(Octet(v, 16));
    BitsOfValue(Octet(v, 8));
    BitsOfValue(Octet(v, 0));
    hide Join;
    hide Octet;
    hide Bits;
    hide Value;
  }

  lemma StoredLoad(b: Bytes)
    requires |b| == 4
    ensures Stored(Load(b)) == b
  {
    JoinOctets(0, Bits(b[0]), Bits(b[1]), Bits(b[2]), Bits(b[3]));
    ValueOfBits(b[0]);
    ValueOfBits(b[1]);
    ValueOfBits(b[2]);
    ValueOfBits(b[3]);
    hide Join;
    hide Octet;
    hide Bits;
    hide Value;
  }
}
