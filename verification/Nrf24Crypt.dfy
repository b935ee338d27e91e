/** The XXTEA-CTR link cipher of the nRF24 radio: block function, in-place seal and open,
    and the inference of a 32-bit counter from the eight bits a frame carries. */
module Nrf24Crypt {
  import opened Words
  import opened Octets

  // ---------------------------------------------------------------------------
  // The block function
  // ---------------------------------------------------------------------------

  type Key = k: seq<bv32> | |k| == 4 witness [0, 0, 0, 0]

  datatype Block = Block(v0: bv32, v1: bv32)

  const DELTA: bv32 := 0x9E3779B9

  /** Sums and differences of `uint32_t`. */
  function Add(a: bv32, b: bv32): bv32 {
    a + b
  }

  function Sub(a: bv32, b: bv32): bv32 {
    a - b
  }

  /** 6 + 52 / n rounds for a block of n words. */
  function Rounds(b: Block): nat {
    6 + 52 / |[b.v0, b.v1]|
  }

  /** What one half of a block contributes to the other: a function of that half, of the position
      being changed (0 or 1) and of the running sum. */
  type Mixer = (bv32, bv2, bv32) -> bv32

  /** The mixing of XXTEA, where for blocks of two words both neighbours are the same word. */
  function Xxtea(key: Key): Mixer {
    (x: bv32, p: bv2, sum: bv32) => Mix(x, x, sum, key[KeyIndex(p, sum)])
  }

  function KeyIndex(p: bv2, sum: bv32): (i: nat)
    ensures i < 4
  {
    (p ^ ((sum >> 2) & 3) as bv2) as int
  }

  function Mix(y: bv32, z: bv32, sum: bv32, k: bv32): bv32 {
    Shifts(y, z) ^ Add(sum ^ y, k ^ z)
  }

  function Shifts(y: bv32, z: bv32): bv32 {
    Add((z >> 5) ^ (y << 2), (y >> 3) ^ (z << 4))
  }

  function Round(f: Mixer, b: Block, sum: bv32): Block {
    var v0 := Add(b.v0, f(b.v1, 0, sum));
    Block(v0, Add(b.v1, f(v0, 1, sum)))
  }

  function UndoRound(f: Mixer, b: Block, sum: bv32): Block {
    var v1 := Sub(b.v1, f(b.v0, 1, sum));
    Block(Sub(b.v0, f(v1, 0, sum)), v1)
  }

  /** `n` rounds, the first with running sum `sum + DELTA`. */
  function Encrypt(f: Mixer, b: Block, sum: bv32, n: nat): Block
    decreases n
  {
    if n == 0 then b else
    var s := Add(sum, DELTA);
    Encrypt(f, Round(f, b, s), s, n - 1)
  }

  function Decrypt(f: Mixer, b: Block, sum: bv32, n: nat): Block
    decreases n
  {
    if n == 0 then b else
    var s := Add(sum, DELTA);
    UndoRound(f, Decrypt(f, b, s, n - 1), s)
  }

  lemma RoundInverse(f: Mixer, b: Block, sum: bv32)
    ensures UndoRound(f, Round(f, b, sum), sum) == b
    ensures Round(f, UndoRound(f, b, sum), sum) == b
  {
    AddSub(b.v0, f(b.v1, 0, sum));
    AddSub(b.v1, f(Add(b.v0, f(b.v1, 0, sum)), 1, sum));
    AddSub(b.v1, f(b.v0, 1, sum));
    AddSub(b.v0, f(Sub(b.v1, f(b.v0, 1, sum)), 0, sum));
    hide Add;
    hide Sub;
  }

  lemma AddSub(a: bv32, b: bv32)
    ensures Sub(Add(a, b), b) == a && Sub(Add(a, b), a) == b
    ensures Add(Sub(a, b), b) == a
  {
    assert Sub(a + b, b) == a && Add(a - b, b) == a && Sub(a + b, a) == b;
  }

  /** The block function is a permutation of the 64-bit blocks, whatever the key (and whatever
      the mixing): `Decrypt` is its two-sided inverse over any number of rounds. */
  lemma {:induction false} EncryptIsPermutation(f: Mixer, b: Block, sum: bv32, n: nat)
    ensures Decrypt(f, Encrypt(f, b, sum, n), sum, n) == b
    ensures Encrypt(f, Decrypt(f, b, sum, n), sum, n) == b
    decreases n
  {
    if n == 0 {
    } else {
      var s := Add(sum, DELTA);
      EncryptIsPermutation(f, Round(f, b, s), s, n - 1);
      RoundInverse(f, b, s);
      RoundInverse(f, Decrypt(f, b, s, n - 1), s);
      EncryptIsPermutation(f, b, s, n - 1);
    }
  }

  // ---------------------------------------------------------------------------
  // The keystream
  // ---------------------------------------------------------------------------

  /** The block enciphered for one counter value: the counter and its complement. */
  function CounterBlock(counter: Word): Block {
    Block(Load(BigEndian(counter)), !Load(BigEndian(counter)))
  }

  function KeystreamWords(key: Key, counter: Word): Block {
    Encrypt(Xxtea(key), CounterBlock(counter), 0, Rounds(CounterBlock(counter)))
  }

  type Chunk = b: Bytes | |b| == 8 witness [0, 0, 0, 0, 0, 0, 0, 0]

  /** Eight keystream bytes for every counter value. */
  type Keystream = Word -> Chunk

  function CtrKeystream(key: Key): Keystream {
    (counter: Word) =>
      var b := KeystreamWords(key, counter);
      Stored(b.v0) + Stored(b.v1)
  }

  /** Under one key, different counters never share a keystream block. */
  lemma KeystreamBlocksDiffer(key: Key, c: Word, d: Word)
    requires c != d
    ensures CtrKeystream(key)(c) != CtrKeystream(key)(d)
  {
    EncryptIsPermutation(Xxtea(key), CounterBlock(c), 0, Rounds(CounterBlock(c)));
    EncryptIsPermutation(Xxtea(key), CounterBlock(d), 0, Rounds(CounterBlock(d)));
    assert Load(BigEndian(c)) != Load(BigEndian(d)) by {
      CountersDiffer(c, d);
    }
    assert KeystreamWords(key, c) != KeystreamWords(key, d);
    SerialisedBlocksDiffer(KeystreamWords(key, c), KeystreamWords(key, d));
  }

  lemma CountersDiffer(c: Word, d: Word)
    requires c != d
    ensures Load(BigEndian(c)) != Load(BigEndian(d))
  {
    hide Load;
    hide Stored;
    hide BigEndian;
    StoredLoad(BigEndian(c));
    StoredLoad(BigEndian(d));
    if BigEndian(c) == BigEndian(d) {
      BigEndianInjective(c, d);
    }
  }

  lemma SameHalves(a: Bytes, b: Bytes, c: Bytes, d: Bytes)
    requires |a| == |c| && a + b == c + d
    ensures a == c && b == d
  {
    assert a == (a + b)[..|a|] && b == (a + b)[|a|..];
    assert c == (c + d)[..|a|] && d == (c + d)[|a|..];
  }

  lemma SerialisedBlocksDiffer(b: Block, c: Block)
    requires b != c
    ensures Stored(b.v0) + Stored(b.v1) != Stored(c.v0) + Stored(c.v1)
  {
    hide Load;
    hide Stored;
    LoadStored(b.v0);
    LoadStored(b.v1);
    LoadStored(c.v0);
    LoadStored(c.v1);
    if Stored(b.v0) + Stored(b.v1) == Stored(c.v0) + Stored(c.v1) {
      SameHalves(Stored(b.v0), Stored(b.v1), Stored(c.v0), Stored(c.v1));
    }
  }

  function XorBlock(data: Bytes, ks: Bytes): (r: Bytes)
    requires |data| <= |ks|
    ensures |r| == |data|
  {
    seq(|data|, i requires 0 <= i < |data| => Xor(data[i], ks[i]))
  }

  /** CTR mode over `data`: one keystream block per eight bytes, the counter stepping by one. */
  function XorStream(ks: Keystream, data: Bytes, counter: Word): (r: Bytes)
    ensures |r| == |data|
  {
    if |data| <= 8 then XorBlock(data, ks(counter))
    else XorBlock(data[..8], ks(counter)) + XorStream(ks, data[8..], Plus(counter, 1))
  }

  lemma XorBlockInvolution(data: Bytes, ks: Bytes)
    requires |data| <= |ks|
    ensures XorBlock(XorBlock(data, ks), ks) == data
  {
    forall i | 0 <= i < |data|
      ensures XorBlock(XorBlock(data, ks), ks)[i] == data[i]
    {
      XorTwice(data[i], ks[i]);
    }
  }

  lemma {:induction false} XorStreamInvolution(ks: Keystream, data: Bytes, counter: Word)
    ensures XorStream(ks, XorStream(ks, data, counter), counter) == data
  {
    if |data| <= 8 {
      XorBlockInvolution(data, ks(counter));
    } else {
      var head, tail := XorBlock(data[..8], ks(counter)), XorStream(ks, data[8..], Plus(counter, 1));
      XorBlockInvolution(data[..8], ks(counter));
      XorStreamInvolution(ks, data[8..], Plus(counter, 1));
      assert (head + tail)[..8] == head && (head + tail)[8..] == tail;
      assert data == data[..8] + data[8..];
    }
  }

  // ---------------------------------------------------------------------------
  // Frames on the air
  // ---------------------------------------------------------------------------

  const MIN_PLAIN: nat := 2
  const MAX_PLAIN: nat := 31
  const RX_WINDOW: Byte := 32

  predicate ValidPlain(plain: Bytes) {
    MIN_PLAIN <= |plain| <= MAX_PLAIN
  }

  function Low(counter: Word): Byte {
    counter % 256
  }

  /** What the sender puts on the air for `plain` at counter value `counter`. */
  function SealFrame(ks: Keystream, counter: Word, plain: Bytes): (frame: Bytes)
    ensures |frame| == |plain| + 1
  {
    [Low(counter)] + XorStream(ks, plain, counter)
  }

  datatype Rx = Rx(counter: Word, initialized: bool)

  /** The counter the receiver assigns to a frame carrying `ctrByte`, or None when it rejects it. */
  function Infer(rx: Rx, ctrByte: Byte): Option<Word> {
    if !rx.initialized then Some(ctrByte)
    else
      var rxLow := Low(rx.counter);
      var diff := (ctrByte - rxLow) % 256;
      if diff == 0 || diff > RX_WINDOW then None
      else if ctrByte < rxLow then Some(Plus(rx.counter - rxLow, 256 + ctrByte))
      else Some(rx.counter - rxLow + ctrByte)
  }

  datatype Opened = Opened(plain: Option<Bytes>, rx: Rx)

  function OpenFrame(ks: Keystream, rx: Rx, frame: Bytes): Opened {
    if |frame| < MIN_PLAIN + 1 || |frame| > MAX_PLAIN + 1 then Opened(None, rx)
    else
      match Infer(rx, frame[0])
      case None => Opened(None, rx)
      case Some(ctr) => Opened(Some(XorStream(ks, frame[1..], ctr)), Rx(ctr, true))
  }

  /** Counter inference is exact: a frame sealed `d` steps past the receiver's counter (any integer
      `d`, the counters wrapping at 2^32) is given its true counter if and only if `d` lies in the
      forward window 1..32 modulo 2^32, and it is accepted at all if and only if `d` lies in that
      window modulo 256. */
  lemma InferExact(r: Word, d: int)
    ensures Infer(Rx(r, true), Low(Plus(r, d))) == Some(Plus(r, d)) <==> 1 <= d % WORDS <= 32
    ensures Infer(Rx(r, true), Low(Plus(r, d))).Some? <==> 1 <= d % 256 <= 32
  {
    hide Infer;
    hide Low;
    Difference(r, d);
    InferAccepts(r, Low(Plus(r, d)), d % 256);
    if 1 <= d % 256 <= 32 {
      InferValue(r, Low(Plus(r, d)), d % 256);
      SameResidue(r, d, d % 256);
    } else {
      ResidueOfResidue(d);
    }
  }

  lemma InferAccepts(r: Word, low: Byte, e: int)
    requires (low - Low(r)) % 256 == e
    ensures Infer(Rx(r, true), low).Some? <==> 1 <= e <= 32
  {
  }

  lemma InferValue(r: Word, low: Byte, e: int)
    requires 1 <= e <= 32 && (low - Low(r)) % 256 == e
    requires r + e == r - Low(r) + low + if low < Low(r) then 256 else 0
    ensures Infer(Rx(r, true), low) == Some((r + e) % WORDS)
  {
  }

  lemma Difference(r: Word, d: int)
    ensures Low(Plus(r, d)) == (r + d) % 256
    ensures (Low(Plus(r, d)) - Low(r)) % 256 == d % 256
    ensures 1 <= d % 256 <= 32 ==>
      r + d % 256 == r - Low(r) + Low(Plus(r, d)) + if Low(Plus(r, d)) < Low(r) then 256 else 0
  {
    assert Low(Plus(r, d)) == (r + d) % 256;
    ResidueOfDifference(r, d);
  }

  lemma ResidueOfDifference(r: int, d: int)
    ensures ((r + d) % 256 - r % 256) % 256 == d % 256
  {
  }

  /** 256 divides 2^32. */
  lemma ResidueOfResidue(d: int)
    ensures d % WORDS % 256 == d % 256
  {
    assert d % WORDS == 256 * (d / 256 - 0x100_0000 * (d / WORDS)) + d % 256;
  }

  lemma SameResidue(r: Word, d: int, e: int)
    requires e == d % 256 && 1 <= e <= 32
    ensures (r + e) % WORDS == Plus(r, d) <==> 1 <= d % WORDS <= 32
  {
    ResidueOfResidue(d);
    var k, m := d / WORDS, d % WORDS;
    assert m == e || m > 32 by {
      assert m % 256 == e;
    }
    var over, over' := if r + m < WORDS then 0 else 1, if r + e < WORDS then 0 else 1;
    ModWords(r + d, k + over, r + m - over * WORDS);
    ModWords(r + e, over', r + e - over' * WORDS);
  }

  /** The first frame after a key change or a reset is read as if its counter were below 256, and
      that is right for no other counter. */
  lemma FirstFrameExact(rx: Rx, counter: Word)
    requires !rx.initialized
    ensures Infer(rx, Low(counter)) == Some(counter) <==> counter < 256
  {
  }

  /** A frame is opened exactly if it has a legal length and its counter byte lies in the window; what comes out is as
      long as the frame without that byte, and the receiver is in step with it from then on. */
  lemma OpensExact(ks: Keystream, rx: Rx, frame: Bytes)
    ensures
      var o := OpenFrame(ks, rx, frame);
      && (o.plain.Some? <==> 3 <= |frame| <= 32 && (rx.initialized ==> 1 <= (frame[0] - rx.counter) % 256 <= 32))
      && (o.plain.Some? ==> |o.plain.value| == |frame| - 1 && o.rx.initialized && Low(o.rx.counter) == frame[0])
      && (o.plain.None? ==> o.rx == rx)
  {
    if 3 <= |frame| <= 32 && rx.initialized {
      var r, low := rx.counter, frame[0];
      ResidueOfDifference(r, low - r);
      ByteDistance(low, r);
    }
  }

  lemma ByteDistance(low: Byte, r: Word)
    ensures (low - r % 256) % 256 == (low - r) % 256
    ensures r - r % 256 + low < WORDS && (r - r % 256 + low) % 256 == low
    ensures Plus(r - r % 256, 256 + low) % 256 == low
  {
    var q := r / 256;
    assert r == 256 * q + r % 256;
    if 256 * q + 256 + low < WORDS {
      assert Plus(r - r % 256, 256 + low) == 256 * (q + 1) + low;
    } else {
      ModWords(256 * q + 256 + low, 1, 256 * q + 256 + low - WORDS);
    }
  }

  // ---------------------------------------------------------------------------
  // Whole runs over a channel that loses and repeats frames
  // ---------------------------------------------------------------------------

  /** One sealed frame and how many copies of it reach the receiver before the next one is sent;
      none when the frame is lost. */
  datatype Sending = Sending(plain: Bytes, copies: nat)

  datatype Received = Received(plains: seq<Bytes>, rx: Rx)

  function Receive(ks: Keystream, rx: Rx, frame: Bytes, copies: nat): Received
    decreases copies
  {
    if copies == 0 then Received([], rx)
    else
      var first := OpenFrame(ks, rx, frame);
      var others := Receive(ks, first.rx, frame, copies - 1);
      Received((if first.plain.Some? then [first.plain.value] else []) + others.plains, others.rx)
  }

  /** Everything the receiver hands out while the sender, starting at counter `tx`, works through
      `sent`. */
  function Link(ks: Keystream, tx: Word, rx: Rx, sent: seq<Sending>): Received
    decreases |sent|
  {
    if sent == [] then Received([], rx)
    else
      var head := Receive(ks, rx, SealFrame(ks, tx, sent[0].plain), sent[0].copies);
      var tail := Link(ks, Plus(tx, 1), head.rx, sent[1..]);
      Received(head.plains + tail.plains, tail.rx)
  }

  /** The plaintexts of the frames that got through, in sending order, each once. */
  function Delivered(sent: seq<Sending>): seq<Bytes> {
    if sent == [] then []
    else (if sent[0].copies > 0 then [sent[0].plain] else []) + Delivered(sent[1..])
  }

  /** The losses the cipher is built for: the first frame to arrive is among the first 256 sent, and
      after that at most 31 frames in a row are lost. `lost` counts the frames lost since the last
      delivery (`started`), or since the key was set. */
  predicate Tolerable(sent: seq<Sending>, lost: nat, started: bool) {
    if sent == [] then true
    else if sent[0].copies == 0 then Tolerable(sent[1..], lost + 1, started)
    else (if started then lost + 1 <= 32 else lost < 256) && Tolerable(sent[1..], 0, true)
  }

  lemma {:induction false} RepeatsRejected(ks: Keystream, tx: Word, plain: Bytes, copies: nat)
    ensures Receive(ks, Rx(tx, true), SealFrame(ks, tx, plain), copies) == Received([], Rx(tx, true))
  {
    if copies > 0 {
      InferExact(tx, 0);
      assert Plus(tx, 0) == tx;
      RepeatsRejected(ks, tx, plain, copies - 1);
    }
  }

  lemma DeliveredOnce(ks: Keystream, tx: Word, rx: Rx, plain: Bytes, copies: nat)
    requires ValidPlain(plain) && copies > 0 && Infer(rx, Low(tx)) == Some(tx)
    ensures Receive(ks, rx, SealFrame(ks, tx, plain), copies) == Received([plain], Rx(tx, true))
  {
    var frame := SealFrame(ks, tx, plain);
    assert frame[1..] == XorStream(ks, plain, tx);
    XorStreamInvolution(ks, plain, tx);
    RepeatsRejected(ks, tx, plain, copies - 1);
  }

  /** The next frame to arrive, `lost + 1` steps after the receiver's counter, is read under the
      counter it was sealed with. */
  lemma NextInferred(tx: Word, rx: Rx, lost: nat)
    requires if rx.initialized then lost + 1 <= 32 else lost < 256
    requires tx == if rx.initialized then Plus(rx.counter, lost + 1) else lost % WORDS
    ensures Infer(rx, Low(tx)) == Some(tx)
  {
    hide Infer;
    hide Low;
    if rx.initialized {
      InferExact(rx.counter, lost + 1);
    } else {
      FirstFrameExact(rx, tx);
    }
  }

  lemma {:induction false} LinkDeliversFrom(ks: Keystream, tx: Word, rx: Rx, sent: seq<Sending>, lost: nat)
    requires forall s :: s in sent ==> ValidPlain(s.plain)
    requires Tolerable(sent, lost, rx.initialized)
    requires tx == if rx.initialized then Plus(rx.counter, lost + 1) else lost % WORDS
    ensures Link(ks, tx, rx, sent).plains == Delivered(sent)
    decreases |sent|
  {
    if sent == [] {
    } else if sent[0].copies == 0 {
      PlusPlus(rx.counter, lost + 1, 1);
      PlusPlus(0, lost, 1);
      LinkDeliversFrom(ks, Plus(tx, 1), rx, sent[1..], lost + 1);
    } else {
      NextInferred(tx, rx, lost);
      DeliveredOnce(ks, tx, rx, sent[0].plain, sent[0].copies);
      LinkDeliversFrom(ks, Plus(tx, 1), Rx(tx, true), sent[1..], 0);
    }
  }

  /** From a fresh key on both ends, whatever the keystream, the receiver hands out exactly the
      plaintexts that were delivered, in sending order, each once. */
  lemma LinkDelivers(ks: Keystream, rx: Rx, sent: seq<Sending>)
    requires !rx.initialized
    requires forall s :: s in sent ==> 2 <= |s.plain| <= 31
    requires Tolerable(sent, 0, false)
    ensures Link(ks, 0, rx, sent).plains == Delivered(sent)
  {
    LinkDeliversFrom(ks, 0, rx, sent, 0);
  }

  // ---------------------------------------------------------------------------
  // Which keystream blocks a frame uses
  // ---------------------------------------------------------------------------

  /** How many keystream blocks a plaintext takes, the last one perhaps in part. */
  function Blocks(plain: Bytes): nat {
    (|plain| + 7) / 8
  }

  lemma StreamUnfolds(ks: Keystream, data: Bytes, counter: Word)
    ensures XorStream(ks, data, counter) ==
      if |data| <= 8 then XorBlock(data, ks(counter))
      else XorBlock(data[..8], ks(counter)) + XorStream(ks, data[8..], Plus(counter, 1))
  {
  }

  lemma SliceBehind(head: Bytes, tail: Bytes, lo: nat, hi: nat)
    requires |head| <= lo <= hi <= |head| + |tail|
    ensures (head + tail)[lo..hi] == tail[lo - |head|..hi - |head|]
  {
  }

  /** The `k`th eight bytes of a frame are enciphered with the keystream block `k` counters on. */
  lemma {:induction false} FrameUsesBlock(ks: Keystream, counter: Word, plain: Bytes, k: nat)
    requires k < Blocks(plain)
    ensures
      var end := Min(8 * k + 8, |plain|);
      8 * k < end && XorStream(ks, plain, counter)[8 * k..end] == XorBlock(plain[8 * k..end], ks(Plus(counter, k)))
    decreases k
  {
    hide XorStream;
    hide XorBlock;
    StreamUnfolds(ks, plain, counter);
    if k == 0 {
      assert Plus(counter, 0) == counter;
      FirstBlock(ks, counter, plain);
    } else {
      hide Plus;
      var (end, rest) := (Min(8 * k + 8, |plain|), plain[8..]);
      var head, tail := XorBlock(plain[..8], ks(counter)), XorStream(ks, rest, Plus(counter, 1));
      FrameUsesBlock(ks, Plus(counter, 1), rest, k - 1);
      PlusPlus(counter, 1, k - 1);
      SliceBehind(plain[..8], rest, 8 * k, end);
      assert plain[..8] + rest == plain;
      SliceBehind(head, tail, 8 * k, end);
    }
  }

  lemma FirstBlock(ks: Keystream, counter: Word, plain: Bytes)
    ensures
      var end := Min(8, |plain|);
      XorStream(ks, plain, counter)[0..end] == XorBlock(plain[0..end], ks(counter))
  {
    hide XorStream;
    hide XorBlock;
    StreamUnfolds(ks, plain, counter);
    if |plain| <= 8 {
      assert plain[0..|plain|] == plain;
    } else {
      assert plain[0..8] == plain[..8];
      assert (XorBlock(plain[..8], ks(counter)) + XorStream(ks, plain[8..], Plus(counter, 1)))[0..8] ==
             XorBlock(plain[..8], ks(counter));
    }
  }

  /** Two frames have a keystream block in common. */
  ghost predicate ShareBlock(c: Word, plain: Bytes, d: Word, other: Bytes) {
    exists i, j :: 0 <= i < Blocks(plain) && 0 <= j < Blocks(other) && Plus(c, i) == Plus(d, j)
  }

  /** The frame counter steps by one and each frame takes up to four keystream blocks from it on: two frames
      share a block exactly when one's counter lies fewer steps past the other's than that one has blocks. */
  lemma BlocksSharedExact(c: Word, plain: Bytes, d: Word, other: Bytes)
    requires ValidPlain(plain) && ValidPlain(other)
    ensures ShareBlock(c, plain, d, other) <==> Minus(d, c) < Blocks(plain) || Minus(c, d) < Blocks(other)
  {
    assert 0 < Blocks(plain) <= 4 && 0 < Blocks(other) <= 4;
    var up, down := Minus(d, c), Minus(c, d);
    if up < Blocks(plain) {
      Reach(c, d);
      assert Plus(c, up) == Plus(d, 0);
    }
    if down < Blocks(other) {
      Reach(d, c);
      assert Plus(c, 0) == Plus(d, down);
    }
    forall i, j | 0 <= i < Blocks(plain) && 0 <= j < Blocks(other) && Plus(c, i) == Plus(d, j)
      ensures up < Blocks(plain) || down < Blocks(other)
    {
      Apart(c, i, d, j);
    }
  }

  lemma Reach(c: Word, d: Word)
    ensures Plus(c, Minus(d, c)) == d && Plus(d, 0) == d
  {
    ModWords(c + Minus(d, c), (c + Minus(d, c) - d) / WORDS, d);
  }

  lemma Apart(c: Word, i: nat, d: Word, j: nat)
    requires i <= 4 && j <= 4 && Plus(c, i) == Plus(d, j)
    ensures Minus(d, c) <= i || Minus(c, d) <= j
  {
  }

  /** A frame of more than eight bytes shares a block with the very next frame, whatever that is: the second
      eight bytes of the one and the first of the other. */
  lemma NextFrameSharesBlock(ks: Keystream, counter: Word, plain: Bytes, next: Bytes)
    requires ValidPlain(plain) && ValidPlain(next) && |plain| > 8
    ensures ShareBlock(counter, plain, Plus(counter, 1), next)
    ensures
      var block := ks(Plus(counter, 1));
      var (m, n) := (Min(16, |plain|), Min(8, |next|));
      && XorStream(ks, plain, counter)[8..m] == XorBlock(plain[8..m], block)
      && XorStream(ks, next, Plus(counter, 1))[..n] == XorBlock(next[..n], block)
  {
    assert Plus(counter, 1) == Plus(Plus(counter, 1), 0);
    FrameUsesBlock(ks, counter, plain, 1);
    FrameUsesBlock(ks, Plus(counter, 1), next, 0);
    assert next[0..Min(8, |next|)] == next[..Min(8, |next|)];
  }

  // ---------------------------------------------------------------------------
  // The key
  // ---------------------------------------------------------------------------

  const ADDR_LEN: nat := 5

  /** The five address bytes repeated up to sixteen, read as four big-endian words. */
  function KeyByte(addr: Bytes, i: nat): Byte
    requires |addr| == ADDR_LEN
  {
    addr[i % ADDR_LEN]
  }

  function DeriveKey(addr: Bytes): Key
    requires |addr| == ADDR_LEN
  {
    seq(4, i requires 0 <= i < 4 =>
      Load([KeyByte(addr, 4 * i), KeyByte(addr, 4 * i + 1), KeyByte(addr, 4 * i + 2), KeyByte(addr, 4 * i + 3)]))
  }

  /** Different addresses give different keys. */
  lemma DeriveKeyInjective(a: Bytes, b: Bytes)
    requires |a| == |b| == ADDR_LEN && DeriveKey(a) == DeriveKey(b)
    ensures a == b
  {
    hide Load;
    hide Stored;
    KeyWords(a);
    KeyWords(b);
    hide DeriveKey;
    var (a0, a1) := ([a[0], a[1], a[2], a[3]], [a[4], a[0], a[1], a[2]]);
    var (b0, b1) := ([b[0], b[1], b[2], b[3]], [b[4], b[0], b[1], b[2]]);
    StoredLoad(a0);
    StoredLoad(a1);
    StoredLoad(b0);
    StoredLoad(b1);
    assert a0[0] == b0[0] && a0[1] == b0[1] && a0[2] == b0[2] && a0[3] == b0[3] && a1[0] == b1[0];
  }

  lemma KeyWords(a: Bytes)
    requires |a| == ADDR_LEN
    ensures DeriveKey(a)[0] == Load([a[0], a[1], a[2], a[3]])
    ensures DeriveKey(a)[1] == Load([a[4], a[0], a[1], a[2]])
  {
    hide Load;
  }

  /** Different key words give different contributions to a half, whatever its neighbours and the sum. */
  lemma MixKeyMatters(y: bv32, z: bv32, sum: bv32, k: bv32, l: bv32)
    requires Mix(y, z, sum, k) == Mix(y, z, sum, l)
    ensures k == l
  {
    hide Shifts;
    hide Add;
    CancelXor(Shifts(y, z), Add(sum ^ y, k ^ z), Add(sum ^ y, l ^ z));
    CancelAdd(sum ^ y, k ^ z, l ^ z);
    CancelXor(z, k, l);
  }

  lemma CancelXor(a: bv32, x: bv32, y: bv32)
    ensures a ^ x == a ^ y ==> x == y
    ensures x ^ a == y ^ a ==> x == y
  {
  }

  lemma CancelAdd(a: bv32, x: bv32, y: bv32)
    requires Add(a, x) == Add(a, y)
    ensures x == y
  {
    AddSub(a, x);
    AddSub(a, y);
    hide Add;
    hide Sub;
  }

  /** One round depends on exactly the two key words it selects: it gives the same block under two keys if and only
      if both words are the same. */
  lemma RoundKeysMatter(k: Key, l: Key, b: Block, sum: bv32)
    ensures
      Round(Xxtea(k), b, sum) == Round(Xxtea(l), b, sum) <==>
      k[KeyIndex(0, sum)] == l[KeyIndex(0, sum)] && k[KeyIndex(1, sum)] == l[KeyIndex(1, sum)]
  {
    hide Mix;
    hide KeyIndex;
    var (p, q) := (KeyIndex(0, sum), KeyIndex(1, sum));
    var (f, g) := (Mix(b.v1, b.v1, sum, k[p]), Mix(b.v1, b.v1, sum, l[p]));
    if Round(Xxtea(k), b, sum) == Round(Xxtea(l), b, sum) {
      CancelAdd(b.v0, f, g);
      MixKeyMatters(b.v1, b.v1, sum, k[p], l[p]);
      var v0 := Add(b.v0, f);
      CancelAdd(b.v1, Mix(v0, v0, sum, k[q]), Mix(v0, v0, sum, l[q]));
      MixKeyMatters(v0, v0, sum, k[q], l[q]);
    }
    hide Add;
  }

  /** The two words selected in a round are different ones, and with the sum all four take their turn. */
  lemma KeyWordsSelected(sum: bv32)
    ensures KeyIndex(0, sum) != KeyIndex(1, sum)
    ensures KeyIndex(0, 0) == 0 && KeyIndex(0, 4) == 1 && KeyIndex(0, 8) == 2 && KeyIndex(0, 12) == 3
  {
  }
}
