/** The cipher's code as the driver runs it: blocks, buffers and counters changed in place. */
module LinkCipher {
  import opened Words
  import opened Octets
  import opened Nrf24Crypt

  /** The source's memmove: `n` bytes, the two ranges may overlap. */
  method MemMove(buf: array<Byte>, dst: nat, src: nat, n: nat)
    requires dst + n <= buf.Length && src + n <= buf.Length
    modifies buf
    ensures buf[..] == old(buf[..dst]) + old(buf[src..src + n]) + old(buf[dst + n..])
  {
    forall i | 0 <= i < n {
      buf[dst + i] := buf[src + i];
    }
  }

  /** One pass of the outer loop, `z` holding the last word written. */
  method RoundInPlace(v: array<bv32>, z0: bv32, sum: bv32, key: Key) returns (z: bv32)
    requires v.Length == 2 && z0 == v[1]
    modifies v
    ensures Block(v[0], v[1]) == Round(Xxtea(key), old(Block(v[0], v[1])), sum) && z == v[1]
  {
    hide Mix;
    hide Add;
    hide KeyIndex;
    var n := v.Length;
    var y: bv32;
    z := z0;
    var p := 0;
    while p < n - 1
      invariant 0 <= p <= 1 && v[1] == z0
      invariant p == 0 ==> v[0] == old(v[0]) && z == z0
      invariant p == 1 ==> z == v[0] && v[0] == Add(old(v[0]), Xxtea(key)(z0, 0, sum))
    {
      y := v[p + 1];
      z := Add(v[p], Mix(y, z, sum, key[KeyIndex(0, sum)]));
      v[p] := z;
      p := p + 1;
    }
    y := v[0];
    z := Add(v[n - 1], Mix(y, z, sum, key[KeyIndex(1, sum)]));
    v[n - 1] := z;
  }

  /** Enciphers a two-word block in place, 32 rounds. */
  method XxteaEncryptBlock(v: array<bv32>, key: Key)
    requires v.Length == 2
    modifies v
    ensures Block(v[0], v[1]) == Encrypt(Xxtea(key), old(Block(v[0], v[1])), 0, Rounds(old(Block(v[0], v[1]))))
  {
    hide Mix;
    hide Add;
    hide KeyIndex;
    hide Round;
    ghost var b := Block(v[0], v[1]);
    var sum: bv32 := 0;
    var n := v.Length;
    var rounds := 6 + 52 / n;
    assert rounds == Rounds(b);
    var z := v[n - 1];
    while true
      invariant 0 < rounds && z == v[1]
      invariant Encrypt(Xxtea(key), b, 0, Rounds(b)) == Encrypt(Xxtea(key), Block(v[0], v[1]), sum, rounds)
      decreases rounds
    {
      sum := Add(sum, DELTA);
      z := RoundInPlace(v, z, sum, key);
      rounds := rounds - 1;
      if rounds == 0 {
        break;
      }
    }
  }

  /** XORs one keystream block over `chunk` bytes of `buf`, in place. */
  method XorChunk(buf: array<Byte>, at: nat, chunk: nat, ks: Bytes)
    requires at + chunk <= buf.Length && chunk <= |ks|
    modifies buf
    ensures buf[..] == old(buf[..at]) + XorBlock(old(buf[at..at + chunk]), ks) + old(buf[at + chunk..])
  {
    var i := 0;
    while i < chunk
      invariant 0 <= i <= chunk
      invariant forall j :: at <= j < at + i ==> buf[j] == Xor(old(buf[j]), ks[j - at])
      invariant forall j :: 0 <= j < at || at + i <= j < buf.Length ==> buf[j] == old(buf[j])
    {
      buf[at + i] := Xor(buf[at + i], ks[i]);
      i := i + 1;
    }
  }

  /** One pass of the loop: enciphers the counter block and XORs it over `chunk` bytes. */
  method XorOneBlock(buf: array<Byte>, at: nat, chunk: nat, ctr: Word, key: Key)
    requires at + chunk <= buf.Length && chunk <= 8
    modifies buf
    ensures buf[..] ==
      old(buf[..at]) + XorBlock(old(buf[at..at + chunk]), CtrKeystream(key)(ctr)) + old(buf[at + chunk..])
  {
    hide Mix;
    hide Load;
    hide Stored;
    hide Encrypt;
    var block := new bv32[2];
    block[0], block[1] := Load(BigEndian(ctr)), !Load(BigEndian(ctr));
    XxteaEncryptBlock(block, key);
    var ks := Stored(block[0]) + Stored(block[1]);
    assert ks == CtrKeystream(key)(ctr);
    XorChunk(buf, at, chunk, ks);
  }

  /** XORs the keystream over `len` bytes of `buf` from index `at`, in place. */
  method CtrXor(buf: array<Byte>, at: nat, len: nat, counter: Word, key: Key)
    requires at + len <= buf.Length
    modifies buf
    ensures buf[..] ==
      old(buf[..at]) + XorStream(CtrKeystream(key), old(buf[at..at + len]), counter) + old(buf[at + len..])
  {
    hide CtrKeystream;
    hide XorStream;
    ghost var data, tail := buf[at..at + len], buf[at + len..];
    ghost var done: Bytes := buf[..at];
    var ctr := counter;
    var off := 0;
    assert buf[..] == done + data + tail;
    while off < len
      invariant off <= len && |done| == at + off
      invariant buf[..] == done + data[off..] + tail
      invariant done + XorStream(CtrKeystream(key), data[off..], ctr) ==
        old(buf[..at]) + XorStream(CtrKeystream(key), data, counter)
    {
      var chunk := if len - off < 8 then len - off else 8;
      ghost var rest := data[off..];
      assert buf[..] == done + rest + tail;
      SplitAround(done, rest, tail, chunk);
      XorOneBlock(buf, at + off, chunk, ctr, key);
      StreamStep(CtrKeystream(key), rest, ctr, chunk);
      assert rest[chunk..] == data[off + chunk..];
      hide XorBlock;
      ghost var x := XorBlock(rest[..chunk], CtrKeystream(key)(ctr));
      Regroup(done, x, rest[chunk..], tail);
      Regroup(done, x, XorStream(CtrKeystream(key), rest[chunk..], Plus(ctr, 1)), []);
      done := done + x;
      off := off + chunk;
      ctr := Plus(ctr, 1);
    }
    assert data[off..] == [];
    assert XorStream(CtrKeystream(key), data[off..], ctr) == [];
  }

  lemma StreamStep(ks: Keystream, data: Bytes, counter: Word, chunk: nat)
    requires 0 < |data| && chunk == if |data| < 8 then |data| else 8
    ensures XorStream(ks, data, counter) ==
      XorBlock(data[..chunk], ks(counter)) + XorStream(ks, data[chunk..], Plus(counter, 1))
  {
    if |data| <= 8 {
      assert data[..chunk] == data && data[chunk..] == [];
    }
  }

  lemma Regroup(a: Bytes, b: Bytes, c: Bytes, d: Bytes)
    ensures a + b + (c + d) == (a + b) + c + d && a + (b + c) == (a + b) + c
  {
  }

  lemma SplitAround(a: Bytes, b: Bytes, c: Bytes, n: nat)
    requires n <= |b|
    ensures (a + b + c)[..|a|] == a
    ensures (a + b + c)[|a|..|a| + n] == b[..n]
    ensures (a + b + c)[|a| + n..] == b[n..] + c
  {
  }

  /** Shifts `len` bytes up by one, enciphers them and puts the counter byte in front. */
  method EncipherShifted(buf: array<Byte>, len: nat, ctr: Word, key: Key, ctrByte: Byte)
    requires len + 1 <= buf.Length
    modifies buf
    ensures buf[..len + 1] == [ctrByte] + XorStream(CtrKeystream(key), old(buf[..len]), ctr)
    ensures buf[len + 1..] == old(buf[len + 1..])
  {
    hide CtrKeystream;
    hide XorStream;
    ghost var plain, tail := buf[..len], buf[len + 1..];
    MemMove(buf, 1, 0, len);
    ghost var head := buf[..1];
    assert buf[..] == head + plain + tail;
    SplitAround(head, plain, tail, len);
    CtrXor(buf, 1, len, ctr, key);
    ghost var x := XorStream(CtrKeystream(key), plain, ctr);
    ghost var mid := buf[..];
    assert mid == head + x + tail;
    SplitAround(head, x, tail, len);
    assert mid[1..len + 1] == x && mid[len + 1..] == tail;
    buf[0] := ctrByte;
    assert buf[..] == mid[0 := ctrByte];
    assert buf[..len + 1] == [ctrByte] + mid[1..len + 1];
  }

  /** Deciphers the `len` bytes after the counter byte and shifts them down over it. */
  method DecipherShifted(buf: array<Byte>, len: nat, ctr: Word, key: Key)
    requires 1 <= len && len + 1 <= buf.Length
    modifies buf
    ensures buf[..len] == XorStream(CtrKeystream(key), old(buf[1..len + 1]), ctr)
    ensures buf[len + 1..] == old(buf[len + 1..])
  {
    hide CtrKeystream;
    hide XorStream;
    ghost var head, body, tail := buf[..1], buf[1..len + 1], buf[len + 1..];
    CtrXor(buf, 1, len, ctr, key);
    ghost var x := XorStream(CtrKeystream(key), body, ctr);
    assert buf[..] == head + x + tail;
    SplitAround(head, x, tail, len);
    MemMove(buf, 0, 1, len);
    assert buf[len + 1..] == tail;
  }

  class Cipher {
    var key: Key
    var txCounter: Word
    var rxCounter: Word
    var rxInitialized: bool

    ghost function RxState(): Rx
      reads this
    {
      Rx(rxCounter, rxInitialized)
    }

    constructor (addr: Bytes)
      requires |addr| == ADDR_LEN
      ensures key == DeriveKey(addr) && txCounter == 0 && !rxInitialized
    {
      rxCounter := 0;
      key := [0, 0, 0, 0];
      new;
      SetKey(addr);
    }

    method SetKey(addr: Bytes)
      requires |addr| == ADDR_LEN
      modifies this
      ensures key == DeriveKey(addr)
      ensures txCounter == 0 && !rxInitialized && rxCounter == old(rxCounter)
    {
      hide Load;
      var kbytes := new Byte[16];
      for i := 0 to 16
        invariant forall j :: 0 <= j < i ==> kbytes[j] == KeyByte(addr, j)
        modifies kbytes
      {
        kbytes[i] := addr[i % ADDR_LEN];
      }
      for i := 0 to 4
        invariant |key| == 4
        invariant forall j :: 0 <= j < i ==> key[j] == DeriveKey(addr)[j]
        invariant rxCounter == old(rxCounter)
        modifies this`key
      {
        assert kbytes[4 * i..4 * i + 4] ==
               [KeyByte(addr, 4 * i), KeyByte(addr, 4 * i + 1), KeyByte(addr, 4 * i + 2), KeyByte(addr, 4 * i + 3)];
        key := key[i := Load(kbytes[4 * i..4 * i + 4])];
      }
      txCounter := 0;
      rxInitialized := false;
    }

    /** The next frame counts as the first one again; the counter of the last one stays. */
    method RxReset()
      modifies this`rxInitialized
      ensures RxState() == Rx(old(rxCounter), false)
    {
      rxInitialized := false;
    }

    /** Seals the plaintext at the start of `buf` in place; 0 reports an illegal length. */
    method Seal(buf: array<Byte>, plaintextLen: nat) returns (n: nat)
      requires plaintextLen + 1 <= buf.Length
      modifies buf, this`txCounter
      ensures !(2 <= plaintextLen <= 31) ==>
        n == 0 && buf[..] == old(buf[..]) && txCounter == old(txCounter)
      ensures 2 <= plaintextLen <= 31 ==>
        && n == plaintextLen + 1
        && txCounter == Plus(old(txCounter), 1)
        && buf[..n] == SealFrame(CtrKeystream(key), old(txCounter), old(buf[..plaintextLen]))
        && buf[n..] == old(buf[n..])
    {
      hide CtrKeystream;
      if plaintextLen < MIN_PLAIN || plaintextLen > MAX_PLAIN {
        return 0;
      }
      var ctr := txCounter;
      txCounter := Plus(txCounter, 1);
      var ctrByte := ctr % 256;
      ghost var plain, tail := buf[..plaintextLen], buf[plaintextLen + 1..];
      EncipherShifted(buf, plaintextLen, ctr, key, ctrByte);
      n := plaintextLen + 1;
    }

    /** Opens the frame at the start of `buf` in place; 0 reports a rejected frame, and then neither
        the buffer nor the receiver's state has changed. */
    method Open(buf: array<Byte>, frameLen: nat) returns (n: nat)
      requires frameLen <= buf.Length
      modifies buf, this`rxCounter, this`rxInitialized
      ensures
        var o := OpenFrame(CtrKeystream(key), old(RxState()), old(buf[..frameLen]));
        && RxState() == o.rx
        && (o.plain.None? ==> n == 0 && buf[..] == old(buf[..]))
        && (o.plain.Some? ==> n == frameLen - 1 && buf[..n] == o.plain.value && buf[frameLen..] == old(buf[frameLen..]))
    {
      hide CtrKeystream;
      if frameLen < MIN_PLAIN + 1 || frameLen > MAX_PLAIN + 1 {
        return 0;
      }
      var ctrByte := buf[0];
      var ctr: Word;
      if !rxInitialized {
        ctr := ctrByte;
      } else {
        var rxLow := rxCounter % 256;
        var diff := (ctrByte - rxLow) % 256;
        if diff == 0 || diff > RX_WINDOW {
          return 0;
        }
        if ctrByte < rxLow {
          ctr := Plus(rxCounter - rxCounter % 256, 256 + ctrByte);
        } else {
          ctr := rxCounter - rxCounter % 256 + ctrByte;
        }
      }
      assert Infer(RxState(), ctrByte) == Some(ctr);
      assert buf[..frameLen][1..] == buf[1..frameLen];
      DecipherShifted(buf, frameLen - 1, ctr, key);
      rxCounter := ctr;
      rxInitialized := true;
      n := frameLen - 1;
    }
  }
}
