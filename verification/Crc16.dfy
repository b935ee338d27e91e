/** The serial link's checksum: a reflected 16-bit CRC with polynomial 0xA001 that starts from 0xFFFF. */
module Crc16 {

  const INITIAL: bv16 := 0xFFFF

  function Xor(x: bv16, y: bv16): bv16 {
    x ^ y
  }

  /** One turn of the inner loop. */
  function BitStep(crc: bv16): bv16 {
    if crc & 0x0001 != 0 then (crc >> 1) ^ 0xA001 else crc >> 1
  }

  function BitSteps(crc: bv16, n: nat): bv16 {
    if n == 0 then crc else BitStep(BitSteps(crc, n - 1))
  }

  const BITS: nat := 8

  function Wide(b: bv8): bv16 {
    b as bv16
  }

  function ByteStep(crc: bv16, b: bv8): bv16 {
    BitSteps(Xor(crc, Wide(b)), BITS)
  }

  /** The checksum of `data`, carried on from `crc`. */
  function CrcFrom(crc: bv16, data: seq<bv8>): bv16 {
    if data == [] then crc else ByteStep(CrcFrom(crc, data[..|data| - 1]), data[|data| - 1])
  }

  function Crc(data: seq<bv8>): bv16 {
    CrcFrom(INITIAL, data)
  }

  lemma {:induction false} CrcConcat(crc: bv16, a: seq<bv8>, b: seq<bv8>)
    ensures CrcFrom(crc, a + b) == CrcFrom(CrcFrom(crc, a), b)
    decreases |b|
  {
    hide ByteStep;
    if b == [] {
      assert a + b == a;
    } else {
      var last := |b| - 1;
      assert (a + b)[..|a + b| - 1] == a + b[..last];
      CrcConcat(crc, a, b[..last]);
    }
  }

  // ---------------------------------------------------------------------------
  // Every step can be undone
  // ---------------------------------------------------------------------------

  function BitUnstep(crc: bv16): bv16 {
    if crc & 0x8000 != 0 then ((crc ^ 0xA001) << 1) | 1 else crc << 1
  }

  lemma BitStepInverse(crc: bv16)
    ensures BitUnstep(BitStep(crc)) == crc
  {
  }

  lemma BitUnstepInverse(crc: bv16)
    ensures BitStep(BitUnstep(crc)) == crc
  {
    UnstepBits(crc);
    hide BitUnstep;
    if crc & 0x8000 == 0 {
      EvenStep(BitUnstep(crc), crc);
    } else {
      OddStep(BitUnstep(crc), crc);
    }
  }

  lemma UnstepBits(crc: bv16)
    ensures
      var c := BitUnstep(crc);
      if crc & 0x8000 == 0 then c & 1 == 0 && c >> 1 == crc else c & 1 != 0 && (c >> 1) ^ 0xA001 == crc
  {
    ShiftBack(crc);
  }

  lemma ShiftBack(crc: bv16)
    ensures crc & 0x8000 == 0 ==> (crc << 1) & 1 == 0 && (crc << 1) >> 1 == crc
    ensures crc & 0x8000 != 0 ==>
              (((crc ^ 0xA001) << 1) | 1) & 1 != 0 && ((((crc ^ 0xA001) << 1) | 1) >> 1) ^ 0xA001 == crc
  {
  }

  lemma EvenStep(c: bv16, crc: bv16)
    requires c & 1 == 0 && c >> 1 == crc
    ensures BitStep(c) == crc
  {
  }

  lemma OddStep(c: bv16, crc: bv16)
    requires c & 1 != 0 && (c >> 1) ^ 0xA001 == crc
    ensures BitStep(c) == crc
  {
  }

  lemma {:induction false} BitStepsInjective(x: bv16, y: bv16, n: nat)
    requires BitSteps(x, n) == BitSteps(y, n)
    ensures x == y
    decreases n
  {
    if n > 0 {
      hide BitStep;
      BitStepInverse(BitSteps(x, n - 1));
      BitStepInverse(BitSteps(y, n - 1));
      BitStepsInjective(x, y, n - 1);
    }
  }

  lemma XorCancels(u: bv16, v: bv16, b: bv16)
    requires Xor(u, b) == Xor(v, b)
    ensures u == v
  {
  }

  lemma {:induction false} CrcFromInjective(x: bv16, y: bv16, data: seq<bv8>)
    requires CrcFrom(x, data) == CrcFrom(y, data)
    ensures x == y
    decreases |data|
  {
    if data != [] {
      hide BitSteps;
      hide Xor;
      hide Wide;
      var last := |data| - 1;
      var u, v := CrcFrom(x, data[..last]), CrcFrom(y, data[..last]);
      BitStepsInjective(Xor(u, Wide(data[last])), Xor(v, Wide(data[last])), BITS);
      XorCancels(u, v, Wide(data[last]));
      CrcFromInjective(x, y, data[..last]);
    }
  }

  // ---------------------------------------------------------------------------
  // Damage within two adjacent bytes
  // ---------------------------------------------------------------------------

  lemma BitStepLinear(x: bv16, y: bv16)
    ensures BitStep(Xor(x, y)) == Xor(BitStep(x), BitStep(y))
  {
    if x & 1 != 0 {
      assert if y & 1 != 0 then (x ^ y) & 1 == 0 else (x ^ y) & 1 == 1;
    } else {
      assert if y & 1 != 0 then (x ^ y) & 1 == 1 else (x ^ y) & 1 == 0;
    }
  }

  lemma {:induction false} BitStepsLinear(x: bv16, y: bv16, n: nat)
    ensures BitSteps(Xor(x, y), n) == Xor(BitSteps(x, n), BitSteps(y, n))
    decreases n
  {
    hide BitStep;
    hide Xor;
    if n > 0 {
      BitStepsLinear(x, y, n - 1);
      BitStepLinear(BitSteps(x, n - 1), BitSteps(y, n - 1));
    }
  }

  function Eight(c: bv16): bv16 {
    BitStep(BitStep(BitStep(BitStep(BitStep(BitStep(BitStep(BitStep(c))))))))
  }

  lemma EightIsBitSteps(c: bv16)
    ensures BitSteps(c, BITS) == Eight(c)
  {
    hide BitStep;
    OneMoreStep(c, 0);
    OneMoreStep(c, 1);
    OneMoreStep(c, 2);
    OneMoreStep(c, 3);
    OneMoreStep(c, 4);
    OneMoreStep(c, 5);
    OneMoreStep(c, 6);
    OneMoreStep(c, 7);
  }

  lemma OneMoreStep(crc: bv16, j: nat)
    ensures BitSteps(crc, 0) == crc
    ensures BitSteps(crc, j + 1) == BitStep(BitSteps(crc, j))
  {
  }

  /** Eight steps spread one byte's damage over the high byte, where the next byte cannot undo it. */
  lemma DamageSpreads(d: bv16)
    requires d < 256 && Eight(d) < 256
    ensures d == 0
  {
  }

  lemma XorAssociates(x: bv16, y: bv16, z: bv16)
    ensures Xor(Xor(x, y), z) == Xor(x, Xor(y, z))
  {
  }

  lemma XorAway(x: bv16, y: bv16)
    ensures Xor(Xor(x, y), x) == y
  {
  }

  lemma XorTelescopes(x: bv16, y: bv16, z: bv16)
    ensures Xor(Xor(x, y), Xor(x, z)) == Xor(y, z)
  {
    hide Xor;
    XorAssociates(Xor(x, y), x, z);
    XorAway(x, y);
  }

  lemma XorCommutes(x: bv16, y: bv16)
    ensures Xor(x, y) == Xor(y, x)
  {
  }

  lemma Regroup(u: bv16, v: bv16, b: bv16, d: bv16)
    requires Xor(u, b) == Xor(v, d)
    ensures Xor(u, v) == Xor(b, d)
  {
    hide Xor;
    XorCommutes(u, b);
    XorCommutes(v, b);
    XorTelescopes(b, u, v);
    XorTelescopes(v, d, b);
    XorCommutes(d, b);
  }

  lemma ByteDifference(x: bv8, y: bv8)
    ensures Xor(Wide(x), Wide(y)) < 256
    ensures Xor(Wide(x), Wide(y)) == 0 ==> x == y
  {
  }

  lemma XorCancelsLeft(u: bv16, b: bv16, d: bv16)
    requires Xor(u, b) == Xor(u, d)
    ensures Xor(b, d) == 0
  {
  }

  lemma TwoBytes(crc: bv16, x1: bv8, x2: bv8, y1: bv8, y2: bv8)
    requires ByteStep(ByteStep(crc, x1), x2) == ByteStep(ByteStep(crc, y1), y2)
    ensures x1 == y1 && x2 == y2
  {
    hide BitSteps;
    hide Xor;
    hide Wide;
    hide Eight;
    var a, b, c, d := Wide(x1), Wide(x2), Wide(y1), Wide(y2);
    var u, v := ByteStep(crc, x1), ByteStep(crc, y1);
    BitStepsInjective(Xor(u, b), Xor(v, d), BITS);
    XorTelescopes(crc, a, c);
    Regroup(u, v, b, d);
    BitStepsLinear(Xor(crc, a), Xor(crc, c), BITS);
    EightIsBitSteps(Xor(a, c));
    ByteDifference(x1, y1);
    ByteDifference(x2, y2);
    DamageSpreads(Xor(a, c));
    XorCancelsLeft(u, b, d);
  }

  /** Equal outside the two bytes at `i`. */
  ghost predicate DifferOnlyAt(a: seq<bv8>, b: seq<bv8>, i: nat) {
    |a| == |b| && forall k :: 0 <= k < |a| && k != i && k != i + 1 ==> a[k] == b[k]
  }

  /** No damage confined to two adjacent bytes goes unnoticed, at any length. */
  lemma AdjacentDamageShows(a: seq<bv8>, b: seq<bv8>, i: nat)
    requires DifferOnlyAt(a, b, i) && a != b
    ensures Crc(a) != Crc(b)
  {
    hide ByteStep;
    if Crc(a) == Crc(b) {
      EqualCrcEqualData(a, b, i);
    }
  }

  lemma EqualCrcEqualData(a: seq<bv8>, b: seq<bv8>, i: nat)
    requires DifferOnlyAt(a, b, i) && Crc(a) == Crc(b)
    ensures a == b
  {
    hide ByteStep;
    if i + 1 < |a| {
      SplitCrc(a, i);
      SplitCrc(b, i);
      assert a[..i] == b[..i] && a[i + 2..] == b[i + 2..];
      var c := CrcFrom(INITIAL, a[..i]);
      CrcFromInjective(ByteStep(ByteStep(c, a[i]), a[i + 1]), ByteStep(ByteStep(c, b[i]), b[i + 1]), a[i + 2..]);
      TwoBytes(c, a[i], a[i + 1], b[i], b[i + 1]);
    } else if i + 1 == |a| {
      assert a[..i] == b[..i];
      var c := CrcFrom(INITIAL, a[..i]);
      assert ByteStep(c, a[i]) == ByteStep(c, b[i]);
      TwoBytes(c, a[i], 0, b[i], 0);
    }
  }

  lemma SplitCrc(a: seq<bv8>, i: nat)
    requires i + 1 < |a|
    ensures Crc(a) == CrcFrom(ByteStep(ByteStep(CrcFrom(INITIAL, a[..i]), a[i]), a[i + 1]), a[i + 2..])
  {
    hide ByteStep;
    CrcConcat(INITIAL, a[..i + 2], a[i + 2..]);
    assert a[..i + 2] + a[i + 2..] == a;
    assert a[..i + 2][..i + 1] == a[..i + 1] && a[..i + 1][..i] == a[..i];
  }

  // ---------------------------------------------------------------------------
  // A known answer
  // ---------------------------------------------------------------------------

  lemma KnownByteSteps()
    ensures ByteStep(0xFFFF, 0x31) == 0x947E
    ensures ByteStep(0x947E, 0x32) == 0xF595
    ensures ByteStep(0xF595, 0x33) == 0x7A75
    ensures ByteStep(0x7A75, 0x34) == 0x30BA
    ensures ByteStep(0x30BA, 0x35) == 0xA471
    ensures ByteStep(0xA471, 0x36) == 0x32E4
    ensures ByteStep(0x32E4, 0x37) == 0x9D73
    ensures ByteStep(0x9D73, 0x38) == 0x37DD
    ensures ByteStep(0x37DD, 0x39) == 0x4B37
  {
    EightIsBitSteps(Xor(0xFFFF, Wide(0x31)));
    EightIsBitSteps(Xor(0x947E, Wide(0x32)));
    EightIsBitSteps(Xor(0xF595, Wide(0x33)));
    EightIsBitSteps(Xor(0x7A75, Wide(0x34)));
    EightIsBitSteps(Xor(0x30BA, Wide(0x35)));
    EightIsBitSteps(Xor(0xA471, Wide(0x36)));
    EightIsBitSteps(Xor(0x32E4, Wide(0x37)));
    EightIsBitSteps(Xor(0x9D73, Wide(0x38)));
    EightIsBitSteps(Xor(0x37DD, Wide(0x39)));
    hide BitSteps;
  }

  lemma NextByte(crc: bv16, data: seq<bv8>, b: bv8)
    ensures CrcFrom(crc, data + [b]) == ByteStep(CrcFrom(crc, data), b)
  {
    assert (data + [b])[..|data|] == data;
  }

  /** The checksum of the digits 1 to 9. */
  lemma KnownCrc()
    ensures Crc([0x31, 0x32, 0x33, 0x34, 0x35, 0x36, 0x37, 0x38, 0x39]) == 0x4B37
    ensures Crc([0x31, 0x32]) == 0xF595 && Crc([]) == 0xFFFF
  {
    hide ByteStep;
    KnownByteSteps();
    assert CrcFrom(INITIAL, []) == 0xFFFF;
    hide CrcFrom;
    var d: seq<bv8> := [];
    NextByte(INITIAL, d, 0x31);
    d := d + [0x31];
    NextByte(INITIAL, d, 0x32);
    d := d + [0x32];
    assert d == [0x31, 0x32];
    NextByte(INITIAL, d, 0x33);
    d := d + [0x33];
    NextByte(INITIAL, d, 0x34);
    d := d + [0x34];
    NextByte(INITIAL, d, 0x35);
    d := d + [0x35];
    NextByte(INITIAL, d, 0x36);
    d := d + [0x36];
    NextByte(INITIAL, d, 0x37);
    d := d + [0x37];
    NextByte(INITIAL, d, 0x38);
    d := d + [0x38];
    NextByte(INITIAL, d, 0x39);
    d := d + [0x39];
    assert d == [0x31, 0x32, 0x33, 0x34, 0x35, 0x36, 0x37, 0x38, 0x39];
  }

  // ---------------------------------------------------------------------------
  // The code itself
  // ---------------------------------------------------------------------------

  method Crc16Ccitt(data: array<bv8>, len: nat) returns (crc: bv16)
    requires len <= data.Length
    ensures crc == Crc(data[..len])
  {
    hide BitSteps;
    crc := 0xFFFF;
    for i := 0 to len
      invariant crc == CrcFrom(INITIAL, data[..i])
    {
      assert data[..i + 1][..i] == data[..i];
      crc := crc ^ (data[i] as bv16);
      ghost var start := crc;
      OneMoreStep(start, 0);
      for j := 0 to 8
        invariant crc == BitSteps(start, j)
      {
        OneMoreStep(start, j);
        if crc & 0x0001 != 0 {
          crc := (crc >> 1) ^ 0xA001;
        } else {
          crc := crc >> 1;
        }
      }
    }
  }
}
