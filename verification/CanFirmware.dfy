/** The devices' own upgrade code: handlers that update static variables in place, one frame at a time. */
module CanFirmware {
  import opened Words
  import opened FlashImage
  import opened CanDevice

  // ---------------------------------------------------------------------------
  // The key chunks received, one bit each
  // ---------------------------------------------------------------------------

  const ALL_CHUNKS: bv8 := 0x1F

  function Bit(i: nat): bv8
    requires i < KEY_CHUNKS
  {
    (1 as bv8) << i
  }

  predicate Marked(mask: bv8, i: nat)
    requires i < KEY_CHUNKS
  {
    mask & Bit(i) != 0
  }

  ghost function Chunks(mask: bv8): set<nat> {
    set i | 0 <= i < KEY_CHUNKS && Marked(mask, i)
  }

  lemma MarkOne(mask: bv8, i: nat)
    requires i < KEY_CHUNKS
    ensures Chunks(mask | Bit(i)) == Chunks(mask) + {i}
  {
    forall j | 0 <= j < KEY_CHUNKS
      ensures Marked(mask | Bit(i), j) <==> Marked(mask, j) || j == i
    {
      MarkBit(mask, i, j);
    }
  }

  lemma DistinctBits(i: nat, j: nat)
    requires i < KEY_CHUNKS && j < KEY_CHUNKS
    ensures Bit(i) & Bit(j) != 0 <==> i == j
  {
  }

  lemma MarkBit(mask: bv8, i: nat, j: nat)
    requires i < KEY_CHUNKS && j < KEY_CHUNKS
    ensures Marked(mask | Bit(i), j) <==> Marked(mask, j) || j == i
  {
    DistinctBits(i, j);
    hide Bit;
    Distribute(mask, Bit(i), Bit(j));
  }

  lemma Distribute(a: bv8, b: bv8, c: bv8)
    ensures (a | b) & c != 0 <==> a & c != 0 || b & c != 0
  {
  }

  lemma AllMarked(mask: bv8)
    ensures mask & ALL_CHUNKS == ALL_CHUNKS <==> FULL_MASK <= Chunks(mask)
  {
    AllBits(mask);
    assert forall i :: i in Chunks(mask) <==> 0 <= i < KEY_CHUNKS && Marked(mask, i);
    assert FULL_MASK <= Chunks(mask) <==>
      Marked(mask, 0) && Marked(mask, 1) && Marked(mask, 2) && Marked(mask, 3) && Marked(mask, 4);
  }

  lemma AllBits(mask: bv8)
    ensures mask & 0x1F == 0x1F <==>
      mask & 1 != 0 && mask & 2 != 0 && mask & 4 != 0 && mask & 8 != 0 && mask & 16 != 0
  {
  }

  lemma NoBits(b: bv8)
    ensures 0 & b == 0
  {
  }

  lemma NoneMarked()
    ensures Chunks(0) == {}
  {
    forall i | 0 <= i < KEY_CHUNKS
      ensures !Marked(0, i)
    {
      NoBits(Bit(i));
    }
  }

  // ---------------------------------------------------------------------------
  // The library
  // ---------------------------------------------------------------------------

  /** The device after a whole list of frames, and everything it replied. */
  function HandleAll(cfg: Config, d: Library, frames: seq<Frame>, hw: seq<Hardware>): Handled<Library>
    requires cfg.slot.block > 0 && |d.keybuf| == KEY_LEN && |hw| == |frames|
    decreases |frames|
  {
    if frames == [] then Handled(d, [])
    else
      var last := |frames| - 1;
      var before := HandleAll(cfg, d, frames[..last], hw[..last]);
      if |before.device.keybuf| != KEY_LEN then before
      else
        var r := Handle(cfg, before.device, frames[last], hw[last]);
        Handled(r.device, before.replies + r.replies)
  }

  lemma {:induction false} HandleAllKeepsKeybuf(cfg: Config, d: Library, frames: seq<Frame>, hw: seq<Hardware>)
    requires cfg.slot.block > 0 && |d.keybuf| == KEY_LEN && |hw| == |frames|
    ensures |HandleAll(cfg, d, frames, hw).device.keybuf| == KEY_LEN
    decreases |frames|
  {
    hide Handle;
    if frames != [] {
      var last := |frames| - 1;
      HandleAllKeepsKeybuf(cfg, d, frames[..last], hw[..last]);
      HandleKeepsKeybuf(cfg, HandleAll(cfg, d, frames[..last], hw[..last]).device, frames[last], hw[last]);
    }
  }

  class Firmware {
    const cfg: Config
    var fwImgInitialized: bool
    var fwWritten: Word
    var fwTotalSize: Word
    var img: Image
    const rxKeybuf: array<Byte>
    var keyChunkMask: bv8
    var bootRequests: seq<Word>
    var replies: seq<Reply>

    ghost predicate Valid()
      reads this
    {
      cfg.Valid() && rxKeybuf.Length == KEY_LEN
    }

    ghost function State(): (d: Library)
      reads this, rxKeybuf
      requires Valid()
      ensures |d.keybuf| == KEY_LEN
    {
      Library(fwImgInitialized, fwWritten, fwTotalSize, img, rxKeybuf[..], Chunks(keyChunkMask), bootRequests)
    }

    /** This state and these replies are what `r` says, given what had been replied before. */
    ghost predicate Is(r: Handled<Library>, before: seq<Reply>)
      reads this, rxKeybuf
      requires Valid()
    {
      State() == r.device && replies == before + r.replies
    }

    constructor (cfg: Config)
      requires cfg.Valid()
      ensures Valid() && fresh(rxKeybuf) && this.cfg == cfg
      ensures !fwImgInitialized && bootRequests == [] && replies == [] && Chunks(keyChunkMask) == {}
    {
      this.cfg := cfg;
      fwImgInitialized, fwWritten, fwTotalSize, img := false, 0, 0, EMPTY;
      rxKeybuf, keyChunkMask := new Byte[KEY_LEN](_ => 0), 0;
      bootRequests, replies := [], [];
      new;
      NoneMarked();
    }

    method FwCanReply(code: Code, value: Word)
      modifies this`replies
      ensures replies == old(replies) + [Reply(code, value)]
    {
      replies := replies + [Reply(code, value)];
    }

    /** False, and an answer sent, when a complete but foreign key has been loaded. */
    method CheckKeyhash() returns (ok: bool)
      requires Valid()
      modifies this`keyChunkMask, this`replies
      ensures
        var check := cfg.keyhash.Some? && KeyLoaded(old(State()));
        && State() == (if check then old(State()).(keyChunks := {}) else old(State()))
        && ok == !(check && old(rxKeybuf[..]) != cfg.keyhash.value)
        && replies == (if ok then old(replies) else old(replies) + [Reply(KeyhashError, 0)])
    {
      ok := true;
      AllMarked(keyChunkMask);
      if cfg.keyhash.Some? && keyChunkMask & ALL_CHUNKS == ALL_CHUNKS {
        keyChunkMask := 0;
        NoneMarked();
        if rxKeybuf[..] != cfg.keyhash.value {
          FwCanReply(KeyhashError, 0);
          ok := false;
        }
      }
    }

    method StartUpdate(frame: Frame, hw: Hardware)
      requires Valid()
      modifies this
      ensures Valid() && Is(HandleStart(cfg, old(State()), frame, hw), old(replies))
    {
      hide Chunks;
      hide DataWord;
      if |frame.data| != 8 {
        FwCanReply(FlashError, 0);
        return;
      }
      var ok := CheckKeyhash();
      if !ok {
        return;
      }
      if !fwImgInitialized {
        if !hw.flashOk {
          FwCanReply(FlashError, 0);
          return;
        }
        // the result of the erase is not looked at
        img := Opened(hw.eraseOk);
        fwImgInitialized := true;
        fwWritten := 0;
      }
      fwTotalSize := DataWord(frame, 1);
      FwCanReply(Offset, 0);
    }

    method ConfirmUpdate(frame: Frame, hw: Hardware)
      requires Valid()
      modifies this
      ensures Valid() && Is(HandleConfirm(cfg, old(State()), frame, hw), old(replies))
    {
      hide Chunks;
      hide DataWord;
      hide BufferedWrite;
      if !fwImgInitialized {
        FwCanReply(TransferError, 0);
        return;
      }
      var permanent := DataWord(frame, 1);
      var flushed;
      flushed, img := TryWrite(cfg.slot, img, [], true, hw.flashOk);
      fwImgInitialized := false;
      if fwWritten != fwTotalSize {
        FwCanReply(TransferError, 0);
        return;
      }
      if hw.bootOk {
        bootRequests := bootRequests + [permanent];
        FwCanReply(Confirm, CONFIRMED);
      } else {
        FwCanReply(TransferError, 0);
      }
    }

    method HandlePlatformRx(frame: Frame, hw: Hardware)
      requires Valid()
      modifies this
      ensures Valid() && Is(HandlePlatform(cfg, old(State()), frame, hw), old(replies))
    {
      hide HandleStart;
      hide HandleConfirm;
      hide DataWord;
      hide Chunks;
      var cmd := DataWord(frame, 0);
      if cmd == CMD_START {
        StartUpdate(frame, hw);
      } else if cmd == CMD_CONFIRM {
        ConfirmUpdate(frame, hw);
      } else if cmd == CMD_VERSION {
        FwCanReply(Version, cfg.versionLen);
      }
    }

    /** `memcpy` of one chunk into the key buffer. */
    method CopyChunk(at: nat, chunk: Bytes)
      requires Valid() && at + |chunk| <= KEY_LEN
      modifies rxKeybuf
      ensures rxKeybuf[..] == old(rxKeybuf[..at]) + chunk + old(rxKeybuf[at + |chunk|..])
    {
      forall k | 0 <= k < |chunk| {
        rxKeybuf[at + k] := chunk[k];
      }
    }

    method HandleKeyhashFrame(frame: Frame)
      requires Valid()
      modifies this, rxKeybuf
      ensures Valid() && Is(HandleKeyhash(old(State()), frame), old(replies))
    {
      hide Chunks;
      var seqNo: Byte := if frame.data == [] then 0 else frame.data[0];
      var chunk := ChunkLen(seqNo);
      if seqNo >= KEY_CHUNKS || |frame.data| < 1 + chunk {
        return;
      }
      var at := seqNo * KEY_CHUNK;
      CopyChunk(at, frame.data[1..1 + chunk]);
      MarkOne(keyChunkMask, seqNo);
      keyChunkMask := keyChunkMask | Bit(seqNo);
    }

    method HandleFwData(frame: Frame, hw: Hardware)
      requires Valid()
      modifies this
      ensures Valid() && Is(HandleData(cfg, old(State()), frame, hw), old(replies))
    {
      hide Chunks;
      hide BufferedWrite;
      if !fwImgInitialized {
        FwCanReply(TransferError, 0);
        return;
      }
      var ok;
      ok, img := TryWrite(cfg.slot, img, frame.data, false, hw.flashOk);
      if !ok {
        FwCanReply(FlashError, 0);
        return;
      }
      fwWritten := Plus(fwWritten, |frame.data|);
      if fwWritten == fwTotalSize {
        FwCanReply(UpdateSuccess, fwTotalSize);
      } else if fwWritten % 64 == 0 {
        FwCanReply(Offset, fwWritten);
      }
    }

    method Receive(frame: Frame, hw: Hardware)
      requires Valid()
      modifies this, rxKeybuf
      ensures Valid() && Is(Handle(cfg, old(State()), frame, hw), old(replies))
    {
      hide HandlePlatform;
      hide HandleData;
      hide HandleKeyhash;
      hide Chunks;
      if frame.id == PLATFORM_RX {
        HandlePlatformRx(frame, hw);
      } else if frame.id == FW_DATA_RX {
        HandleFwData(frame, hw);
      } else if frame.id == KEYHASH_RX && cfg.keyhash.Some? {
        HandleKeyhashFrame(frame);
      }
    }

    /** The receive thread working through its queue. */
    method RxThread(queue: seq<Frame>, hw: seq<Hardware>)
      requires Valid() && |hw| == |queue|
      modifies this, rxKeybuf
      ensures Valid() && Is(HandleAll(cfg, old(State()), queue, hw), old(replies))
    {
      hide Handle;
      hide Chunks;
      ghost var d := State();
      for i := 0 to |queue|
        invariant Valid() && Is(HandleAll(cfg, d, queue[..i], hw[..i]), old(replies))
      {
        HandleAllKeepsKeybuf(cfg, d, queue[..i], hw[..i]);
        Receive(queue[i], hw[i]);
        assert queue[..i + 1][..i] == queue[..i] && hw[..i + 1][..i] == hw[..i];
      }
      assert queue[..|queue|] == queue && hw[..|queue|] == hw;
    }
  }

  // ---------------------------------------------------------------------------
  // The laser controller
  // ---------------------------------------------------------------------------

  class LaserFirmware {
    const cfg: Config
    var img: Image
    var offset: Word
    var totalSize: Word
    var updating: bool
    var bootRequests: seq<Word>
    var replies: seq<Reply>

    ghost function State(): Laser
      reads this
    {
      Laser(img, offset, totalSize, updating, bootRequests)
    }

    constructor (cfg: Config)
      ensures this.cfg == cfg && State() == Laser(EMPTY, 0, 0, false, []) && replies == []
    {
      this.cfg := cfg;
      img, offset, totalSize, updating, bootRequests, replies := EMPTY, 0, 0, false, [], [];
    }

    method FwCanReceive(code: Code, value: Word)
      modifies this`replies
      ensures replies == old(replies) + [Reply(code, value)]
    {
      replies := replies + [Reply(code, value)];
    }

    method FwUpdate(frame: Frame, hw: Hardware) returns (status: int)
      requires cfg.slot.block > 0
      modifies this
      ensures
        var r := LaserHandle(cfg, old(State()), frame, hw);
        && State() == r.device && replies == old(replies) + r.replies
        && (status == 0 <==>
              forall reply :: reply in r.replies ==> reply.code != FlashError && reply.code != TransferError)
    {
      hide DataWord;
      hide BufferedWrite;
      if frame.id == PLATFORM_RX {
        var cmd := DataWord(frame, 0);
        if cmd == CMD_START {
          updating := true;
          if |frame.data| != 8 {
            FwCanReceive(FlashError, 0);
            updating := false;
            return -1;
          }
          img, offset, totalSize := Opened(false), 0, 0;
          if !hw.flashOk {
            FwCanReceive(FlashError, 0);
            updating := false;
            return -1;
          }
          if !hw.eraseOk {
            FwCanReceive(FlashError, 0);
            updating := false;
            return -1;
          }
          img := Opened(true);
          totalSize := DataWord(frame, 1);
          FwCanReceive(Offset, 0);
        } else if cmd == CMD_CONFIRM {
          var flushed;
          flushed, img := TryWrite(cfg.slot, img, [], true, hw.flashOk);
          if totalSize != |img.flushed| {
            FwCanReceive(TransferError, offset);
            return -1;
          }
          bootRequests := bootRequests + [DataWord(frame, 1)];
          FwCanReceive(Confirm, CONFIRMED);
        } else if cmd == CMD_VERSION {
          FwCanReceive(Version, cfg.versionLen);
        }
      } else if frame.id == FW_DATA_RX {
        var ok;
        ok, img := TryWrite(cfg.slot, img, frame.data, false, hw.flashOk);
        if !ok {
          FwCanReceive(FlashError, 0);
          updating := false;
          return -1;
        }
        offset := Plus(offset, |frame.data|);
        if offset == totalSize {
          FwCanReceive(UpdateSuccess, totalSize);
          updating := false;
        } else if offset % 64 == 0 {
          FwCanReceive(Offset, offset);
        }
      }
      return 0;
    }
  }
}
