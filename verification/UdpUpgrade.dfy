/** The upgrade over UDP: the image is streamed into the slot, read back, and trusted only if its
    checksum is the one the host announces at the end. */
module UdpUpgrade {
  import opened Words
  import opened FlashImage

  const FW_START: Byte := 1
  const FW_DATA: Byte := 2
  const FW_END: Byte := 3
  const FW_GET_VERSION: Byte := 4
  const FW_REBOOT: Byte := 5

  const START_FAIL: Byte := 0
  const START_OK: Byte := 1
  const START_KEYHASH: Byte := 2

  const CRC_CHUNK: nat := 64

  // ---------------------------------------------------------------------------
  // Checksums
  // ---------------------------------------------------------------------------

  /** How a checksum takes in one more byte. */
  type CrcStep = (nat, Byte) -> nat

  function Fold(step: CrcStep, seed: nat, data: Bytes): nat {
    if data == [] then seed else step(Fold(step, seed, data[..|data| - 1]), data[|data| - 1])
  }

  /** A checksum carried on from one piece to the next is the checksum of the whole. */
  lemma {:induction false} FoldConcat(step: CrcStep, seed: nat, a: Bytes, b: Bytes)
    ensures Fold(step, seed, a + b) == Fold(step, Fold(step, seed, a), b)
    decreases |b|
  {
    if b == [] {
      assert a + b == a;
    } else {
      var last := |b| - 1;
      assert (a + b)[..|a + b| - 1] == a + b[..last];
      FoldConcat(step, seed, a, b[..last]);
    }
  }

  lemma FoldNothing(step: CrcStep, seed: nat)
    ensures Fold(step, seed, []) == seed
  {
  }

  lemma NextChunk(step: CrcStep, data: Bytes, from: nat, to: nat)
    requires from <= to <= |data|
    ensures Fold(step, Fold(step, 0, data[..from]), data[from..to]) == Fold(step, 0, data[..to])
  {
    assert data[..from] + data[from..to] == data[..to];
    FoldConcat(step, 0, data[..from], data[from..to]);
  }

  // ---------------------------------------------------------------------------
  // One command
  // ---------------------------------------------------------------------------

  datatype Config = Config(slot: Slot, keyhash: Option<Bytes>, version: Bytes, step: CrcStep) {
    ghost predicate Valid() {
      slot.block > 0 && slot.capacity < WORDS
    }
  }

  /** `chunks` tells, chunk by chunk, whether reading the slot back succeeds; `stale` is what a slot shows that
      was not erased before it was written. */
  datatype Hardware = Hardware(
    openOk: bool,
    eraseOk: bool,
    initOk: bool,
    flashOk: bool,
    chunks: seq<bool>,
    bootOk: bool,
    stale: nat -> Byte)

  predicate ReadOk(chunks: seq<bool>, k: nat) {
    k < |chunks| ==> chunks[k]
  }

  datatype Device = Device(started: bool, size: Word, received: Word, img: Image, bootRequests: seq<nat>)

  const RESET: Device := Device(false, 0, 0, EMPTY, [])

  datatype Command = Command(cmd: Byte, data: Bytes)

  /** No reply at all to a command that is not the library's. */
  datatype Handled = Handled(device: Device, reply: Option<Bytes>)

  predicate KeyRefused(cfg: Config, data: Bytes)
    requires |data| >= 4
  {
    cfg.keyhash.Some? && |data| == 4 + KEY_LEN && data[4..] != cfg.keyhash.value
  }

  function HandleStart(cfg: Config, d: Device, data: Bytes, hw: Hardware): Handled {
    if d.started || |data| < 4 then Handled(d, Some([START_FAIL]))
    else
      var d := d.(size := FromLittleEndian(data[..4]));
      if KeyRefused(cfg, data) then Handled(d, Some([START_KEYHASH]))
      else if !hw.openOk || !hw.initOk then Handled(d, Some([START_FAIL]))
      else Handled(d.(started := true, received := 0, img := Opened(hw.eraseOk)), Some([START_OK]))
  }

  function HandleData(cfg: Config, d: Device, data: Bytes, hw: Hardware): Handled
    requires cfg.slot.block > 0
  {
    if !d.started || data == [] then Handled(d, Some(LittleEndian(0)))
    else
      match BufferedWrite(cfg.slot, d.img, data, false, hw.flashOk)
      case None => Handled(d.(started := false), Some(LittleEndian(0)))
      case Some(img) =>
        var received := Plus(d.received, |data|);
        Handled(d.(img := img, received := received), Some(LittleEndian(received)))
  }

  /** The read-back check: every chunk can be read, and the checksum over all of them fits. */
  ghost predicate Verified(cfg: Config, shown: Bytes, crc: nat, hw: Hardware) {
    && hw.openOk
    && (forall k: nat :: k * CRC_CHUNK < |shown| ==> ReadOk(hw.chunks, k))
    && Fold(cfg.step, 0, shown) == crc
  }

  function StaleBytes(n: nat, stale: nat -> Byte): (r: Bytes)
    ensures |r| == n && forall i :: 0 <= i < n ==> r[i] == stale(i)
  {
    if n == 0 then [] else StaleBytes(n - 1, stale) + [stale(n - 1)]
  }

  /** What reading back shows of the bytes programmed. */
  function ReadBack(img: Image, hw: Hardware): (r: Bytes)
    ensures |r| == |img.flushed|
  {
    if img.erased then img.flushed else StaleBytes(|img.flushed|, hw.stale)
  }

  function AnnouncedCrc(data: Bytes): nat
    requires |data| >= 3
  {
    data[1] as int + 256 * data[2] as int
  }

  ghost function HandleEnd(cfg: Config, d: Device, data: Bytes, hw: Hardware): Handled
    requires cfg.slot.block > 0
  {
    if !d.started || |data| < 3 then Handled(d, Some([0]))
    else
      var flushed := BufferedWrite(cfg.slot, d.img, [], true, hw.flashOk);
      var d := d.(img := if flushed.Some? then flushed.value else d.img, started := false);
      if Verified(cfg, ReadBack(d.img, hw), AnnouncedCrc(data), hw) && hw.bootOk then
        Handled(d.(bootRequests := d.bootRequests + [if data[0] != 0 then 0 else 1]), Some([1]))
      else Handled(d, Some([0]))
  }

  ghost function Handle(cfg: Config, d: Device, c: Command, hw: Hardware): Handled
    requires cfg.slot.block > 0
  {
    if c.cmd == FW_START then HandleStart(cfg, d, c.data, hw)
    else if c.cmd == FW_DATA then HandleData(cfg, d, c.data, hw)
    else if c.cmd == FW_END then HandleEnd(cfg, d, c.data, hw)
    else if c.cmd == FW_GET_VERSION then Handled(d, Some(cfg.version))
    else if c.cmd == FW_REBOOT then Handled(RESET.(bootRequests := d.bootRequests), Some([]))
    else Handled(d, None)
  }

  // ---------------------------------------------------------------------------
  // Whole conversations
  // ---------------------------------------------------------------------------

  /** A command as it was sent, what the hardware made of it, and the reply. */
  datatype Exchange = Exchange(command: Command, hw: Hardware, reply: Option<Bytes>)

  /** What the host, who sees only its commands and the replies, must take the running transfer to
      contain; None when no transfer is running. */
  function Transfer(talk: seq<Exchange>): Option<Bytes>
    decreases |talk|
  {
    if talk == [] then None
    else
      var before, x := Transfer(talk[..|talk| - 1]), talk[|talk| - 1];
      if x.command.cmd == FW_START then if x.reply == Some([START_OK]) then Some([]) else before
      else if x.command.cmd == FW_DATA && before.Some? && x.command.data != [] then
        if x.reply == Some(LittleEndian(0)) then None else Some(before.value + x.command.data)
      else if x.command.cmd == FW_END && |x.command.data| >= 3 then None
      else if x.command.cmd == FW_REBOOT then None
      else before
  }

  /** Whether the slot of the running transfer was erased, which the answer to its START does not tell. */
  function Erased(talk: seq<Exchange>): bool
    decreases |talk|
  {
    talk != [] &&
      var x := talk[|talk| - 1];
      if x.command.cmd == FW_START && x.reply == Some([START_OK]) then x.hw.eraseOk else Erased(talk[..|talk| - 1])
  }

  datatype Ran = Ran(device: Device, talk: seq<Exchange>)

  /** The conversation that a list of commands makes, the hardware doing as told. */
  ghost function RunCommands(cfg: Config, d: Device, commands: seq<Command>, hw: seq<Hardware>): (r: Ran)
    requires cfg.slot.block > 0 && |hw| == |commands|
    ensures |r.talk| == |commands|
    decreases |commands|
  {
    if commands == [] then Ran(d, [])
    else
      var last := |commands| - 1;
      var before := RunCommands(cfg, d, commands[..last], hw[..last]);
      var h := Handle(cfg, before.device, commands[last], hw[last]);
      Ran(h.device, before.talk + [Exchange(commands[last], hw[last], h.reply)])
  }

  /** The device's side of a running transfer. */
  ghost predicate Holds(cfg: Config, d: Device, transfer: Option<Bytes>, erased: bool)
    requires cfg.slot.block > 0
  {
    && d.started == transfer.Some?
    && (d.started ==>
          && d.img.Contents() == transfer.value && InBlocks(cfg.slot, d.img) && d.img.erased == erased
          && d.received == |transfer.value| <= cfg.slot.capacity)
  }

  lemma DataKeepsHolds(cfg: Config, d: Device, transfer: Option<Bytes>, erased: bool, data: Bytes, hw: Hardware)
    requires cfg.Valid() && Holds(cfg, d, transfer, erased) && d.started && data != []
    ensures
      var r := HandleData(cfg, d, data, hw);
      Holds(cfg, r.device, if r.reply == Some(LittleEndian(0)) then None else Some(transfer.value + data), erased)
  {
    hide BufferedWrite;
    hide LittleEndian;
    RefusedWrite(cfg.slot, d.img, data, hw.flashOk);
    if HasRoom(cfg.slot, d.img, data) && hw.flashOk {
      WriteAppends(cfg.slot, d.img, data, false);
      WriteKeepsBlocks(cfg.slot, d.img, data);
      assert Plus(d.received, |data|) == d.received + |data|;
      LittleEndianInverse(d.received + |data|);
      LittleEndianInverse(0);
    }
  }

  lemma RefusedWrite(slot: Slot, img: Image, data: Bytes, flashOk: bool)
    requires slot.block > 0
    ensures BufferedWrite(slot, img, data, false, flashOk).Some? <==> HasRoom(slot, img, data) && flashOk
  {
  }

  lemma StepKeepsHolds(cfg: Config, d: Device, before: seq<Exchange>, x: Exchange)
    requires cfg.Valid() && Holds(cfg, d, Transfer(before), Erased(before))
    requires Handle(cfg, d, x.command, x.hw).reply == x.reply
    ensures Holds(cfg, Handle(cfg, d, x.command, x.hw).device, Transfer(before + [x]), Erased(before + [x]))
  {
    hide BufferedWrite;
    hide LittleEndian;
    hide FromLittleEndian;
    hide Verified;
    assert (before + [x])[..|before|] == before;
    if x.command.cmd == FW_DATA && d.started && x.command.data != [] {
      DataKeepsHolds(cfg, d, Transfer(before), Erased(before), x.command.data, x.hw);
    }
  }

  /** In every conversation from reset, failures included, the host's view of the transfer is the device's, and
      its slot is erased exactly if the erase of the START that began it succeeded. */
  lemma {:induction false} HostKnowsTransfer(cfg: Config, commands: seq<Command>, hw: seq<Hardware>)
    requires cfg.Valid() && |hw| == |commands|
    ensures var r := RunCommands(cfg, RESET, commands, hw); Holds(cfg, r.device, Transfer(r.talk), Erased(r.talk))
    decreases |commands|
  {
    hide Handle;
    if commands != [] {
      var last := |commands| - 1;
      HostKnowsTransfer(cfg, commands[..last], hw[..last]);
      var before := RunCommands(cfg, RESET, commands[..last], hw[..last]);
      var reply := Handle(cfg, before.device, commands[last], hw[last]).reply;
      StepKeepsHolds(cfg, before.device, before.talk, Exchange(commands[last], hw[last], reply));
    }
  }

  /** What END reads back of a transfer: all of it, or, where the flush of END itself failed, the whole blocks;
      and nothing of it, but something of that length, where the slot had not been erased. */
  function Shown(cfg: Config, transfer: Bytes, erased: bool, hw: Hardware): Bytes
    requires cfg.slot.block > 0
  {
    var stored := if hw.flashOk then transfer else transfer[..WholeBlocks(|transfer|, cfg.slot.block)];
    if erased then stored else StaleBytes(|stored|, hw.stale)
  }

  /** An END that closes a running transfer and announces the checksum of what the slot shows of the data accepted
      since its START, while the read-back and the boot request succeed. */
  ghost predicate Passes(cfg: Config, t: Option<Bytes>, erased: bool, c: Command, hw: Hardware)
    requires cfg.slot.block > 0
  {
    && c.cmd == 3 && |c.data| >= 3 && t.Some? && hw.openOk && hw.bootOk
    && var shown := Shown(cfg, t.value, erased, hw);
    && (forall k: nat :: 64 * k < |shown| ==> ReadOk(hw.chunks, k))
    && Fold(cfg.step, 0, shown) == c.data[1] as int + 256 * c.data[2] as int
  }

  lemma VerifiedMeans(cfg: Config, shown: Bytes, crc: nat, hw: Hardware)
    ensures
      Verified(cfg, shown, crc, hw) <==>
      hw.openOk && (forall k: nat :: 64 * k < |shown| ==> ReadOk(hw.chunks, k)) && Fold(cfg.step, 0, shown) == crc
  {
    hide Fold;
    assert forall k: nat :: 64 * k == k * CRC_CHUNK;
  }

  lemma EndBoots(cfg: Config, d: Device, t: Option<Bytes>, erased: bool, c: Command, hw: Hardware)
    requires cfg.Valid() && Holds(cfg, d, t, erased) && c.cmd == 3
    ensures
      HandleEnd(cfg, d, c.data, hw).device.bootRequests ==
      d.bootRequests + (if Passes(cfg, t, erased, c, hw) then [if c.data[0] != 0 then 0 else 1] else [])
  {
    hide BufferedWrite;
    hide ReadBack;
    hide Shown;
    hide Fold;
    if d.started && |c.data| >= 3 {
      EndShows(cfg, d, t.value, erased, hw);
      VerifiedMeans(cfg, Shown(cfg, t.value, erased, hw), AnnouncedCrc(c.data), hw);
    }
    hide Verified;
    assert d.bootRequests + [] == d.bootRequests;
  }

  lemma OthersDoNotBoot(cfg: Config, d: Device, c: Command, hw: Hardware)
    requires cfg.Valid() && c.cmd != 3
    ensures Handle(cfg, d, c, hw).device.bootRequests == d.bootRequests
  {
    hide BufferedWrite;
    hide FromLittleEndian;
    hide LittleEndian;
  }

  lemma EndDispatches(cfg: Config, d: Device, c: Command, hw: Hardware)
    requires cfg.Valid() && c.cmd == 3
    ensures Handle(cfg, d, c, hw) == HandleEnd(cfg, d, c.data, hw)
  {
    hide HandleEnd;
  }

  /** The gate. After any conversation at all and with any failure, a boot is requested exactly in an END that passes;
      permanently unless the test flag is set. No other command requests one. */
  lemma BootGate(cfg: Config, commands: seq<Command>, before: seq<Hardware>, c: Command, hw: Hardware)
    requires cfg.Valid() && |before| == |commands|
    ensures
      var ran := RunCommands(cfg, RESET, commands, before);
      Handle(cfg, ran.device, c, hw).device.bootRequests ==
      ran.device.bootRequests + (if Passes(cfg, Transfer(ran.talk), Erased(ran.talk), c, hw) then
                                   [if c.data[0] != 0 then 0 else 1] else [])
  {
    hide Handle;
    hide HandleEnd;
    HostKnowsTransfer(cfg, commands, before);
    var ran := RunCommands(cfg, RESET, commands, before);
    if c.cmd == 3 {
      EndDispatches(cfg, ran.device, c, hw);
      EndBoots(cfg, ran.device, Transfer(ran.talk), Erased(ran.talk), c, hw);
    } else {
      OthersDoNotBoot(cfg, ran.device, c, hw);
      assert ran.device.bootRequests + [] == ran.device.bootRequests;
    }
  }

  /** The command carries a whole hash of a signing key, and it is not the configured one. */
  predicate Foreign(cfg: Config, data: Bytes) {
    cfg.keyhash.Some? && |data| == 36 && data[4..] != cfg.keyhash.value
  }

  lemma StartAnswer(cfg: Config, d: Device, data: Bytes, hw: Hardware)
    ensures
      var r := HandleStart(cfg, d, data, hw);
      && r.reply == Some([if d.started || |data| < 4 then 0 else if Foreign(cfg, data) then 2
                          else if hw.openOk && hw.initOk then 1 else 0])
      && (if r.reply == Some([1]) then
            r.device.started && r.device.received == 0 && r.device.bootRequests == d.bootRequests
          else r.device == d.(size := r.device.size))
  {
    hide FromLittleEndian;
  }

  lemma DataAnswer(cfg: Config, d: Device, transfer: Option<Bytes>, erased: bool, data: Bytes, hw: Hardware)
    requires cfg.Valid() && Holds(cfg, d, transfer, erased)
    ensures
      HandleData(cfg, d, data, hw).reply == Some(
        if transfer.Some? && data != [] && hw.flashOk && |transfer.value| + |data| <= cfg.slot.capacity then
          LittleEndian(|transfer.value| + |data|)
        else [0, 0, 0, 0])
  {
    hide BufferedWrite;
    assert LittleEndian(0) == [0, 0, 0, 0];
    hide LittleEndian;
    RefusedWrite(cfg.slot, d.img, data, hw.flashOk);
    if transfer.Some? {
      assert |d.img.Contents()| == |d.img.flushed| + |d.img.pending|;
      if |transfer.value| + |data| <= cfg.slot.capacity {
        assert Plus(d.received, |data|) == d.received + |data|;
      }
    }
  }

  lemma EndAnswer(cfg: Config, d: Device, data: Bytes, hw: Hardware)
    requires cfg.Valid()
    ensures
      var r := HandleEnd(cfg, d, data, hw);
      r.reply == Some([if r.device.bootRequests == d.bootRequests then 0 else 1])
  {
    hide BufferedWrite;
    hide Verified;
    hide ReadBack;
  }

  /** START is accepted if and only if no transfer is running, the size is there, the slot and its stream can be
      opened, and the command does not carry a whole hash that differs from the configured one; it is refused as foreign
      exactly for that difference, and whenever it is refused the transfer's state is as before. DATA is answered with
      the number of bytes accepted since the START, or 0. END is answered with 1 if and only if it requests a boot. */
  ghost predicate RightAnswer(cfg: Config, d: Device, t: Option<Bytes>, c: Command, hw: Hardware, r: Handled) {
    && (c.cmd == 1 ==>
          && r.reply == Some([if t.Some? || |c.data| < 4 then 0 else if Foreign(cfg, c.data) then 2
                              else if hw.openOk && hw.initOk then 1 else 0])
          && (r.reply != Some([1]) ==> r.device == d.(size := r.device.size)))
    && (c.cmd == 2 ==>
          r.reply == Some(
            if t.Some? && c.data != [] && hw.flashOk && |t.value| + |c.data| <= cfg.slot.capacity < WORDS then
              LittleEndian(|t.value| + |c.data|)
            else [0, 0, 0, 0]))
    && (c.cmd == 3 ==> r.reply == Some([if r.device.bootRequests == d.bootRequests then 0 else 1]))
    && (c.cmd == 4 ==> r == Handled(d, Some(cfg.version)))
    && (c.cmd == 5 ==> r.reply == Some([]) && !r.device.started && r.device.bootRequests == d.bootRequests)
    && (c.cmd == 0 || c.cmd > 5 ==> r == Handled(d, None))
  }

  lemma AnswersRight(cfg: Config, d: Device, t: Option<Bytes>, erased: bool, c: Command, hw: Hardware)
    requires cfg.Valid() && Holds(cfg, d, t, erased)
    ensures RightAnswer(cfg, d, t, c, hw, Handle(cfg, d, c, hw))
  {
    hide LittleEndian;
    hide HandleStart;
    hide HandleData;
    hide HandleEnd;
    hide Foreign;
    Dispatches(cfg, d, c, hw);
    hide Handle;
    assert d.started == t.Some?;
    if c.cmd == 1 {
      StartAnswer(cfg, d, c.data, hw);
    } else if c.cmd == 2 {
      DataAnswer(cfg, d, t, erased, c.data, hw);
    } else if c.cmd == 3 {
      EndAnswer(cfg, d, c.data, hw);
    }
    hide Holds;
  }

  /** Every answer is right, after any conversation and with any failure. */
  lemma AnswersExact(cfg: Config, commands: seq<Command>, before: seq<Hardware>, c: Command, hw: Hardware)
    requires cfg.Valid() && |before| == |commands|
    ensures
      var ran := RunCommands(cfg, RESET, commands, before);
      RightAnswer(cfg, ran.device, Transfer(ran.talk), c, hw, Handle(cfg, ran.device, c, hw))
  {
    hide RightAnswer;
    hide Handle;
    HostKnowsTransfer(cfg, commands, before);
    var ran := RunCommands(cfg, RESET, commands, before);
    AnswersRight(cfg, ran.device, Transfer(ran.talk), Erased(ran.talk), c, hw);
  }

  lemma Dispatches(cfg: Config, d: Device, c: Command, hw: Hardware)
    requires cfg.Valid()
    ensures
      Handle(cfg, d, c, hw) ==
      if c.cmd == 1 then HandleStart(cfg, d, c.data, hw)
      else if c.cmd == 2 then HandleData(cfg, d, c.data, hw)
      else if c.cmd == 3 then HandleEnd(cfg, d, c.data, hw)
      else if c.cmd == 4 then Handled(d, Some(cfg.version))
      else if c.cmd == 5 then Handled(RESET.(bootRequests := d.bootRequests), Some([]))
      else Handled(d, None)
  {
    hide HandleStart;
    hide HandleData;
    hide HandleEnd;
  }

  lemma EndShows(cfg: Config, d: Device, transfer: Bytes, erased: bool, hw: Hardware)
    requires cfg.Valid() && d.started && Holds(cfg, d, Some(transfer), erased)
    ensures
      var r := BufferedWrite(cfg.slot, d.img, [], true, hw.flashOk);
      ReadBack(if r.Some? then r.value else d.img, hw) == Shown(cfg, transfer, erased, hw)
  {
    hide WholeBlocks;
    if hw.flashOk {
      WriteAppends(cfg.slot, d.img, [], true);
      assert transfer + [] == transfer;
    } else {
      assert d.img.flushed == d.img.Contents()[..|d.img.flushed|];
    }
  }

  ghost predicate NoStartAccepted(talk: seq<Exchange>) {
    forall x :: x in talk && x.command.cmd == FW_START ==> x.reply != Some([START_OK])
  }

  /** A failed write, like any end of a transfer, blocks the boot until a START is accepted again. */
  lemma {:induction false} NoBootWithoutStart(cfg: Config, d: Device, commands: seq<Command>, hw: seq<Hardware>)
    requires cfg.slot.block > 0 && !d.started && |hw| == |commands|
    requires NoStartAccepted(RunCommands(cfg, d, commands, hw).talk)
    ensures
      var r := RunCommands(cfg, d, commands, hw).device;
      !r.started && r.bootRequests == d.bootRequests
    decreases |commands|
  {
    hide LittleEndian;
    hide FromLittleEndian;
    if commands != [] {
      var last := |commands| - 1;
      var before := RunCommands(cfg, d, commands[..last], hw[..last]);
      var r := RunCommands(cfg, d, commands, hw);
      assert r.talk[last] in r.talk;
      assert forall x :: x in before.talk ==> x in r.talk;
      NoBootWithoutStart(cfg, d, commands[..last], hw[..last]);
    }
  }

  lemma FailedWriteStops(cfg: Config, d: Device, data: Bytes, hw: Hardware)
    requires cfg.slot.block > 0 && data != []
    ensures
      var r := Handle(cfg, d, Command(FW_DATA, data), hw);
      (!hw.flashOk || !HasRoom(cfg.slot, d.img, data)) ==> !r.device.started && r.reply == Some(LittleEndian(0))
  {
    hide LittleEndian;
  }

  // ---------------------------------------------------------------------------
  // The code itself
  // ---------------------------------------------------------------------------

  class Server {
    const cfg: Config
    const buf: array<Byte>
    var fwStarted: bool
    var fwSize: Word
    var fwReceived: Word
    var img: Image
    var bootRequests: seq<nat>
    var replies: seq<(Byte, Bytes)>

    ghost predicate Valid()
      reads this
    {
      cfg.Valid() && buf.Length == CRC_CHUNK
    }

    ghost function State(): Device
      reads this
    {
      Device(fwStarted, fwSize, fwReceived, img, bootRequests)
    }

    constructor (cfg: Config)
      requires cfg.Valid()
      ensures Valid() && fresh(buf) && this.cfg == cfg && State() == RESET && replies == []
    {
      this.cfg, buf := cfg, new Byte[CRC_CHUNK](_ => 0);
      fwStarted, fwSize, fwReceived, img, bootRequests, replies := false, 0, 0, EMPTY, [], [];
    }

    method UdpFwReply(cmd: Byte, data: Bytes)
      modifies this`replies
      ensures replies == old(replies) + [(cmd, data)]
    {
      replies := replies + [(cmd, data)];
    }

    /** `flash_area_read`: bytes of the slot into the chunk buffer. */
    method FlashAreaRead(off: nat, len: nat, hw: Hardware)
      requires Valid() && len <= CRC_CHUNK && off + len <= |img.flushed|
      modifies buf
      ensures buf[..len] == ReadBack(img, hw)[off..off + len]
    {
      ghost var shown := ReadBack(img, hw);
      forall j | 0 <= j < len {
        buf[j] := if img.erased then img.flushed[off + j] else hw.stale(off + j);
      }
      assert forall j :: 0 <= j < len ==> buf[j] == shown[off + j];
    }

    /** Read the slot back in chunks of 64 bytes, carrying the checksum from one to the next. */
    method FwVerifyCrc(recvCrc: nat, hw: Hardware) returns (ok: bool)
      requires Valid()
      modifies buf
      ensures ok <==> Verified(cfg, ReadBack(img, hw), recvCrc, hw)
    {
      hide Fold;
      hide ReadBack;
      if !hw.openOk {
        return false;
      }
      ghost var shown := ReadBack(img, hw);
      var written := |img.flushed|;
      var calcCrc, off, k := 0, 0, 0;
      FoldNothing(cfg.step, 0);
      while off < written
        invariant off == k * CRC_CHUNK
        invariant calcCrc == Fold(cfg.step, 0, shown[..if off < written then off else written])
        invariant forall j: nat :: j < k ==> ReadOk(hw.chunks, j)
        decreases written - off
      {
        var len := if written - off < CRC_CHUNK then written - off else CRC_CHUNK;
        if !ReadOk(hw.chunks, k) {
          return false;
        }
        FlashAreaRead(off, len, hw);
        NextChunk(cfg.step, shown, off, off + len);
        calcCrc := Fold(cfg.step, calcCrc, buf[..len]);
        off := off + CRC_CHUNK;
        k := k + 1;
      }
      assert shown[..written] == shown;
      ok := calcCrc == recvCrc;
    }

    method StartCommand(data: Bytes, hw: Hardware)
      requires Valid()
      modifies this
      ensures Valid()
      ensures
        var r := HandleStart(cfg, old(State()), data, hw);
        r.reply.Some? && State() == r.device && replies == old(replies) + [(FW_START, r.reply.value)]
    {
      hide FromLittleEndian;
      var status := START_FAIL;
      if !fwStarted && |data| >= 4 {
        fwSize := FromLittleEndian(data[..4]);
        if KeyRefused(cfg, data) {
          UdpFwReply(FW_START, [START_KEYHASH]);
          return;
        }
        if hw.openOk && hw.initOk {
          // the result of the erase is not looked at
          img := Opened(hw.eraseOk);
          fwStarted := true;
          fwReceived := 0;
          status := START_OK;
        }
      }
      UdpFwReply(FW_START, [status]);
    }

    method DataCommand(data: Bytes, hw: Hardware)
      requires Valid()
      modifies this
      ensures Valid()
      ensures
        var r := HandleData(cfg, old(State()), data, hw);
        r.reply.Some? && State() == r.device && replies == old(replies) + [(FW_DATA, r.reply.value)]
    {
      hide BufferedWrite;
      hide LittleEndian;
      var off := LittleEndian(0);
      if fwStarted && |data| > 0 {
        var ok;
        ok, img := TryWrite(cfg.slot, img, data, false, hw.flashOk);
        if ok {
          fwReceived := Plus(fwReceived, |data|);
          off := LittleEndian(fwReceived);
        } else {
          fwStarted := false;
        }
      }
      UdpFwReply(FW_DATA, off);
    }

    method EndCommand(data: Bytes, hw: Hardware)
      requires Valid()
      modifies this, buf
      ensures Valid()
      ensures
        var r := HandleEnd(cfg, old(State()), data, hw);
        r.reply.Some? && State() == r.device && replies == old(replies) + [(FW_END, r.reply.value)]
    {
      hide BufferedWrite;
      hide Verified;
      var result: Byte := 0;
      if fwStarted && |data| >= 3 {
        var testMode := data[0];
        var recvCrc := AnnouncedCrc(data);
        var flushed;
        flushed, img := TryWrite(cfg.slot, img, [], true, hw.flashOk);
        var ok := FwVerifyCrc(recvCrc, hw);
        if ok && hw.bootOk {
          bootRequests := bootRequests + [if testMode != 0 then 0 else 1];
          result := 1;
        }
        fwStarted := false;
      }
      UdpFwReply(FW_END, [result]);
    }

    /** True when the command was one of the library's own. */
    method HandleFwCmd(c: Command, hw: Hardware) returns (handled: bool)
      requires Valid()
      modifies this, buf
      ensures Valid()
      ensures
        var r := Handle(cfg, old(State()), c, hw);
        && State() == r.device && handled == r.reply.Some?
        && replies == old(replies) + (if handled then [(c.cmd, r.reply.value)] else [])
    {
      hide HandleStart;
      hide HandleData;
      hide HandleEnd;
      handled := true;
      if c.cmd == FW_START {
        StartCommand(c.data, hw);
      } else if c.cmd == FW_DATA {
        DataCommand(c.data, hw);
      } else if c.cmd == FW_END {
        EndCommand(c.data, hw);
      } else if c.cmd == FW_GET_VERSION {
        UdpFwReply(c.cmd, cfg.version);
      } else if c.cmd == FW_REBOOT {
        UdpFwReply(c.cmd, []);
        fwStarted, fwSize, fwReceived, img := false, 0, 0, EMPTY;
      } else {
        handled := false;
      }
    }
  }
}
