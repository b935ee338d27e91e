/** The two devices that speak the CAN upgrade protocol: the shared library and the laser controller.
    A frame goes in; the new state and the replies come out. */
module CanDevice {
  import opened Words
  import opened FlashImage

  // ---------------------------------------------------------------------------
  // Frames
  // ---------------------------------------------------------------------------

  const PLATFORM_RX: nat := 0x101
  const FW_DATA_RX: nat := 0x103
  const KEYHASH_RX: nat := 0x104

  const CMD_START: Word := 0
  const CMD_CONFIRM: Word := 1
  const CMD_VERSION: Word := 2

  /** A received frame: its identifier and as many data bytes as its length code says. */
  datatype Frame = Frame(id: nat, data: Bytes) {
    ghost predicate Valid() {
      |data| <= 8
    }
  }

  datatype Code = Offset | UpdateSuccess | Version | Confirm | FlashError | TransferError | KeyhashError

  datatype Reply = Reply(code: Code, value: Word)

  const CONFIRMED: Word := 0x55AA55AA

  /** The first or second 32-bit word of the eight data bytes, missing bytes reading as zero. */
  function DataWord(frame: Frame, i: nat): Word
    requires i < 2
  {
    var d := frame.data + [0, 0, 0, 0, 0, 0, 0, 0];
    FromLittleEndian(d[4 * i..4 * i + 4])
  }

  function Command(cmd: Word, arg: Word): Frame {
    Frame(PLATFORM_RX, LittleEndian(cmd) + LittleEndian(arg))
  }

  lemma CommandWords(cmd: Word, arg: Word)
    ensures DataWord(Command(cmd, arg), 0) == cmd && DataWord(Command(cmd, arg), 1) == arg
    ensures |Command(cmd, arg).data| == 8
  {
    hide LittleEndian;
    hide FromLittleEndian;
    var d := Command(cmd, arg).data + [0, 0, 0, 0, 0, 0, 0, 0];
    assert d[0..4] == LittleEndian(cmd) && d[4..8] == LittleEndian(arg);
    LittleEndianInverse(cmd);
    LittleEndianInverse(arg);
  }

  /** A command on the bus: its identifier and both words, lowest byte first. */
  lemma KnownCommand()
    ensures Command(0, 0x12345678) == Frame(0x101, [0, 0, 0, 0, 0x78, 0x56, 0x34, 0x12])
    ensures Command(1, 1) == Frame(0x101, [1, 0, 0, 0, 1, 0, 0, 0])
  {
  }

  /** What the hardware does while one frame is handled: `flashOk` is about opening the slot and its stream and
      about writing, `eraseOk` about erasing the slot. */
  datatype Hardware = Hardware(flashOk: bool, eraseOk: bool, bootOk: bool)

  const SOUND: Hardware := Hardware(true, true, true)

  // ---------------------------------------------------------------------------
  // The library
  // ---------------------------------------------------------------------------

  const KEY_CHUNK: nat := 7
  const KEY_CHUNKS: nat := 5

  /** `keyhash` is None when the build has no signing key. */
  datatype Config = Config(slot: Slot, keyhash: Option<Bytes>, versionLen: Word) {
    ghost predicate Valid() {
      slot.block > 0 && (keyhash.Some? ==> |keyhash.value| == KEY_LEN)
    }
  }

  datatype Library = Library(
    initialized: bool,
    written: Word,
    total: Word,
    img: Image,
    keybuf: Bytes,
    keyChunks: set<nat>,
    bootRequests: seq<Word>)

  datatype Handled<T> = Handled(device: T, replies: seq<Reply>)

  const FULL_MASK: set<nat> := {0, 1, 2, 3, 4}

  predicate KeyLoaded(d: Library) {
    FULL_MASK <= d.keyChunks
  }

  function HandleStart(cfg: Config, d: Library, frame: Frame, hw: Hardware): Handled<Library> {
    if |frame.data| != 8 then Handled(d, [Reply(FlashError, 0)])
    else
      var checkKey := cfg.keyhash.Some? && KeyLoaded(d);
      var d := if checkKey then d.(keyChunks := {}) else d;
      if checkKey && d.keybuf != cfg.keyhash.value then Handled(d, [Reply(KeyhashError, 0)])
      else if !d.initialized && !hw.flashOk then Handled(d, [Reply(FlashError, 0)])
      else
        var d := if d.initialized then d else d.(initialized := true, written := 0, img := Opened(hw.eraseOk));
        Handled(d.(total := DataWord(frame, 1)), [Reply(Offset, 0)])
  }

  function HandleConfirm(cfg: Config, d: Library, frame: Frame, hw: Hardware): Handled<Library>
    requires cfg.slot.block > 0
  {
    if !d.initialized then Handled(d, [Reply(TransferError, 0)])
    else
      var flushed := BufferedWrite(cfg.slot, d.img, [], true, hw.flashOk);
      var d := d.(img := if flushed.Some? then flushed.value else d.img, initialized := false);
      if d.written != d.total then Handled(d, [Reply(TransferError, 0)])
      else if hw.bootOk then
        Handled(d.(bootRequests := d.bootRequests + [DataWord(frame, 1)]), [Reply(Confirm, CONFIRMED)])
      else Handled(d, [Reply(TransferError, 0)])
  }

  function HandlePlatform(cfg: Config, d: Library, frame: Frame, hw: Hardware): Handled<Library>
    requires cfg.slot.block > 0
  {
    var cmd := DataWord(frame, 0);
    if cmd == CMD_START then HandleStart(cfg, d, frame, hw)
    else if cmd == CMD_CONFIRM then HandleConfirm(cfg, d, frame, hw)
    else if cmd == CMD_VERSION then Handled(d, [Reply(Version, cfg.versionLen)])
    else Handled(d, [])
  }

  /** How many key bytes chunk `seqNo` carries, computed in eight bits as the code does. */
  function ChunkLen(seqNo: Byte): nat {
    var rem := (KEY_LEN as int - seqNo * KEY_CHUNK) % 256;
    if rem < KEY_CHUNK then rem else KEY_CHUNK
  }

  function HandleKeyhash(d: Library, frame: Frame): (r: Handled<Library>)
    requires |d.keybuf| == KEY_LEN
    ensures |r.device.keybuf| == KEY_LEN
  {
    var seqNo := if frame.data == [] then 0 else frame.data[0];
    if seqNo >= KEY_CHUNKS || |frame.data| < 1 + ChunkLen(seqNo) then Handled(d, [])
    else
      var at := seqNo * KEY_CHUNK;
      var chunk := frame.data[1..1 + ChunkLen(seqNo)];
      Handled(
        d.(keybuf := d.keybuf[..at] + chunk + d.keybuf[at + |chunk|..], keyChunks := d.keyChunks + {seqNo}),
        [])
  }

  function HandleData(cfg: Config, d: Library, frame: Frame, hw: Hardware): Handled<Library>
    requires cfg.slot.block > 0
  {
    if !d.initialized then Handled(d, [Reply(TransferError, 0)])
    else
      match BufferedWrite(cfg.slot, d.img, frame.data, false, hw.flashOk)
      case None => Handled(d, [Reply(FlashError, 0)])
      case Some(img) =>
        var d := d.(img := img, written := Plus(d.written, |frame.data|));
        Handled(d,
          if d.written == d.total then [Reply(UpdateSuccess, d.total)]
          else if d.written % 64 == 0 then [Reply(Offset, d.written)]
          else [])
  }

  function Handle(cfg: Config, d: Library, frame: Frame, hw: Hardware): Handled<Library>
    requires cfg.slot.block > 0 && |d.keybuf| == KEY_LEN
  {
    if frame.id == PLATFORM_RX then HandlePlatform(cfg, d, frame, hw)
    else if frame.id == FW_DATA_RX then HandleData(cfg, d, frame, hw)
    else if frame.id == KEYHASH_RX && cfg.keyhash.Some? then HandleKeyhash(d, frame)
    else Handled(d, [])
  }

  lemma HandleKeepsKeybuf(cfg: Config, d: Library, frame: Frame, hw: Hardware)
    requires cfg.slot.block > 0 && |d.keybuf| == KEY_LEN
    ensures |Handle(cfg, d, frame, hw).device.keybuf| == KEY_LEN
  {
  }

  // ---------------------------------------------------------------------------
  // The key check
  // ---------------------------------------------------------------------------

  /** The frame carrying chunk `i` of `key`. */
  function KeyFrame(key: Bytes, i: nat): Frame
    requires |key| == KEY_LEN && i < KEY_CHUNKS
  {
    Frame(KEYHASH_RX, [i] + key[i * KEY_CHUNK..i * KEY_CHUNK + ChunkLen(i)])
  }

  /** A key of 32 bytes takes four frames of seven bytes and one of the remaining four. */
  lemma KeyFramesExact(key: Bytes)
    requires |key| == 32
    ensures KeyFrame(key, 0) == Frame(0x104, [0] + key[0..7]) && KeyFrame(key, 1) == Frame(0x104, [1] + key[7..14])
    ensures KeyFrame(key, 2) == Frame(0x104, [2] + key[14..21]) && KeyFrame(key, 3) == Frame(0x104, [3] + key[21..28])
    ensures KeyFrame(key, 4) == Frame(0x104, [4] + key[28..32]) && KEY_CHUNKS == 5
  {
  }

  /** The library's state after the chunks `order` of `key`, in that order. */
  function LoadKey(d: Library, key: Bytes, order: seq<nat>): Library
    requires |key| == KEY_LEN == |d.keybuf| && forall i :: i in order ==> i < KEY_CHUNKS
    decreases |order|
  {
    if order == [] then d else
    assert order[0] in order && forall i :: i in order[1..] ==> i in order;
    var d' := HandleKeyhash(d, KeyFrame(key, order[0])).device;
    LoadKey(d', key, order[1..])
  }

  /** The part of the buffer chunk `i` fills. */
  predicate ChunkHeld(keybuf: Bytes, key: Bytes, i: nat)
    requires |keybuf| == KEY_LEN == |key| && i < KEY_CHUNKS
  {
    var at := i * KEY_CHUNK;
    keybuf[at..at + ChunkLen(i)] == key[at..at + ChunkLen(i)]
  }

  lemma LoadOneChunk(d: Library, key: Bytes, i: nat)
    requires |key| == KEY_LEN == |d.keybuf| && i < KEY_CHUNKS
    ensures
      var d' := HandleKeyhash(d, KeyFrame(key, i)).device;
      && |d'.keybuf| == KEY_LEN
      && d' == d.(keybuf := d'.keybuf, keyChunks := d.keyChunks + {i})
      && ChunkHeld(d'.keybuf, key, i)
      && forall j :: 0 <= j < KEY_CHUNKS && ChunkHeld(d.keybuf, key, j) ==> ChunkHeld(d'.keybuf, key, j)
  {
    var at, n := i * KEY_CHUNK, ChunkLen(i);
    var frame := KeyFrame(key, i);
    assert frame.data[1..1 + n] == key[at..at + n];
    var d' := HandleKeyhash(d, frame).device;
    assert d'.keybuf == d.keybuf[..at] + key[at..at + n] + d.keybuf[at + n..];
    forall j | 0 <= j < KEY_CHUNKS && ChunkHeld(d.keybuf, key, j)
      ensures ChunkHeld(d'.keybuf, key, j)
    {
      OtherChunkKept(d.keybuf, d'.keybuf, key, i, j);
    }
  }

  lemma OtherChunkKept(before: Bytes, after: Bytes, key: Bytes, i: nat, j: nat)
    requires |before| == |after| == |key| == KEY_LEN && i < KEY_CHUNKS && j < KEY_CHUNKS
    requires ChunkHeld(before, key, j) && ChunkHeld(after, key, i)
    requires
      var at, n := i * KEY_CHUNK, ChunkLen(i);
      after == before[..at] + key[at..at + n] + before[at + n..]
    ensures ChunkHeld(after, key, j)
  {
    if i != j {
      var at, n := j * KEY_CHUNK, ChunkLen(j);
      assert after[at..at + n] == before[at..at + n];
    }
  }

  lemma {:induction false} LoadedChunksHeld(d: Library, key: Bytes, order: seq<nat>, done: set<nat>)
    requires |key| == KEY_LEN == |d.keybuf| && forall i :: i in order ==> i < KEY_CHUNKS
    requires forall i :: i in done ==> i < KEY_CHUNKS && i in d.keyChunks && ChunkHeld(d.keybuf, key, i)
    ensures
      var d' := LoadKey(d, key, order);
      && d' == d.(keybuf := d'.keybuf, keyChunks := d'.keyChunks)
      && |d'.keybuf| == KEY_LEN
      && forall i :: (i in done || i in order) ==> i in d'.keyChunks && ChunkHeld(d'.keybuf, key, i)
    decreases |order|
  {
    if order != [] {
      assert order[0] in order && forall i :: i in order[1..] ==> i in order;
      LoadOneChunk(d, key, order[0]);
      var d' := HandleKeyhash(d, KeyFrame(key, order[0])).device;
      LoadedChunksHeld(d', key, order[1..], done + {order[0]});
      assert forall i :: i in order ==> i == order[0] || i in order[1..];
    }
  }

  /** Once every chunk has arrived, in whatever order and however often, a START is accepted exactly
      when the key is the device's own; a refused one leaves the slot and the transfer alone. Either way the key is
      used up: the START after it is accepted without one. */
  lemma KeyDecidesStart(cfg: Config, d: Library, key: Bytes, order: seq<nat>, size: Word, again: Word)
    requires cfg.Valid() && cfg.keyhash.Some? && |key| == KEY_LEN == |d.keybuf|
    requires (forall i :: i in order ==> i < KEY_CHUNKS) && (forall i :: 0 <= i < KEY_CHUNKS ==> i in order)
    ensures
      var loaded := LoadKey(d, key, order);
      && |loaded.keybuf| == KEY_LEN
      && var r := Handle(cfg, loaded, Command(CMD_START, size), SOUND);
      && (r.replies == [Reply(Offset, 0)] <==> key == cfg.keyhash.value)
      && (key != cfg.keyhash.value ==>
            r.replies == [Reply(KeyhashError, 0)] && r.device.img == d.img && r.device.initialized == d.initialized
            && r.device.written == d.written && r.device.total == d.total)
      && |r.device.keybuf| == KEY_LEN
      && Handle(cfg, r.device, Command(CMD_START, again), SOUND).replies == [Reply(Offset, 0)]
  {
    hide LittleEndian;
    hide DataWord;
    hide HandleKeyhash;
    LoadedChunksHeld(d, key, order, {});
    var loaded := LoadKey(d, key, order);
    AllChunksHeld(loaded.keybuf, key);
    assert FULL_MASK <= loaded.keyChunks;
    CommandWords(CMD_START, size);
    CommandWords(CMD_START, again);
  }

  lemma AllChunksHeld(keybuf: Bytes, key: Bytes)
    requires |keybuf| == KEY_LEN == |key|
    requires forall i :: 0 <= i < KEY_CHUNKS ==> ChunkHeld(keybuf, key, i)
    ensures keybuf == key
  {
    forall k | 0 <= k < KEY_LEN
      ensures keybuf[k] == key[k]
    {
      var i := k / KEY_CHUNK;
      var at := i * KEY_CHUNK;
      assert ChunkHeld(keybuf, key, i);
      assert keybuf[k] == keybuf[at..at + ChunkLen(i)][k - at];
      assert key[k] == key[at..at + ChunkLen(i)][k - at];
    }
  }

  // ---------------------------------------------------------------------------
  // The laser controller
  // ---------------------------------------------------------------------------

  datatype Laser = Laser(img: Image, offset: Word, total: Word, updating: bool, bootRequests: seq<Word>)

  function LaserStart(l: Laser, frame: Frame, hw: Hardware): Handled<Laser> {
    if |frame.data| != 8 then Handled(l.(updating := false), [Reply(FlashError, 0)])
    else if !hw.flashOk || !hw.eraseOk then
      Handled(l.(img := Opened(false), offset := 0, total := 0, updating := false), [Reply(FlashError, 0)])
    else
      Handled(l.(img := EMPTY, offset := 0, total := DataWord(frame, 1), updating := true), [Reply(Offset, 0)])
  }

  function LaserConfirm(slot: Slot, l: Laser, frame: Frame, hw: Hardware): Handled<Laser>
    requires slot.block > 0
  {
    var flushed := BufferedWrite(slot, l.img, [], true, hw.flashOk);
    var l := l.(img := if flushed.Some? then flushed.value else l.img);
    if l.total != |l.img.flushed| then Handled(l, [Reply(TransferError, l.offset)])
    else Handled(l.(bootRequests := l.bootRequests + [DataWord(frame, 1)]), [Reply(Confirm, CONFIRMED)])
  }

  function LaserData(slot: Slot, l: Laser, frame: Frame, hw: Hardware): Handled<Laser>
    requires slot.block > 0
  {
    match BufferedWrite(slot, l.img, frame.data, false, hw.flashOk)
    case None => Handled(l.(updating := false), [Reply(FlashError, 0)])
    case Some(img) =>
      var l := l.(img := img, offset := Plus(l.offset, |frame.data|));
      if l.offset == l.total then Handled(l.(updating := false), [Reply(UpdateSuccess, l.total)])
      else Handled(l, if l.offset % 64 == 0 then [Reply(Offset, l.offset)] else [])
  }

  function LaserHandle(cfg: Config, l: Laser, frame: Frame, hw: Hardware): Handled<Laser>
    requires cfg.slot.block > 0
  {
    if frame.id == PLATFORM_RX then
      var cmd := DataWord(frame, 0);
      if cmd == CMD_START then LaserStart(l, frame, hw)
      else if cmd == CMD_CONFIRM then LaserConfirm(cfg.slot, l, frame, hw)
      else if cmd == CMD_VERSION then Handled(l, [Reply(Version, cfg.versionLen)])
      else Handled(l, [])
    else if frame.id == FW_DATA_RX then LaserData(cfg.slot, l, frame, hw)
    else Handled(l, [])
  }

  // ---------------------------------------------------------------------------
  // What both promise the host
  // ---------------------------------------------------------------------------

  datatype Device = OfLibrary(library: Library) | OfLaser(laser: Laser)

  function DeviceHandle(cfg: Config, d: Device, frame: Frame): Handled<Device>
    requires cfg.slot.block > 0 && (d.OfLibrary? ==> |d.library.keybuf| == KEY_LEN)
  {
    match d
    case OfLibrary(library) =>
      var r := Handle(cfg, library, frame, SOUND);
      Handled(OfLibrary(r.device), r.replies)
    case OfLaser(laser) =>
      var r := LaserHandle(cfg, laser, frame, SOUND);
      Handled(OfLaser(r.device), r.replies)
  }

  ghost predicate ValidDevice(cfg: Config, d: Device) {
    cfg.Valid() && (d.OfLibrary? ==> |d.library.keybuf| == KEY_LEN)
  }

  function BootRequests(d: Device): seq<Word> {
    match d
    case OfLibrary(library) => library.bootRequests
    case OfLaser(laser) => laser.bootRequests
  }

  function SlotOf(d: Device): Image {
    match d
    case OfLibrary(library) => library.img
    case OfLaser(laser) => laser.img
  }

  /** A complete foreign key is loaded. */
  predicate Refuses(cfg: Config, d: Device) {
    d.OfLibrary? && cfg.keyhash.Some? && KeyLoaded(d.library) && d.library.keybuf != cfg.keyhash.value
  }

  /** A transfer is under way, which a START neither ends nor begins afresh. */
  predicate Busy(d: Device) {
    d.OfLibrary? && d.library.initialized
  }

  /** A device that starts afresh on the next START: the library only when it is not in the middle of
      a transfer and no foreign key is loaded, the laser always. */
  predicate Ready(cfg: Config, d: Device) {
    !Busy(d) && !Refuses(cfg, d)
  }

  /** A device that has taken in exactly `got` of an image of `total` bytes. */
  predicate Receiving(d: Device, got: Bytes, total: Word) {
    && SlotOf(d).Contents() == got && SlotOf(d).erased
    && match d
       case OfLibrary(library) => library.initialized && library.written == |got| && library.total == total
       case OfLaser(laser) => laser.offset == |got| && laser.total == total
  }

  lemma StartAccepted(cfg: Config, d: Device, total: Word)
    requires ValidDevice(cfg, d) && Ready(cfg, d)
    ensures
      var r := DeviceHandle(cfg, d, Command(CMD_START, total));
      && ValidDevice(cfg, r.device) && Receiving(r.device, [], total) && !Refuses(cfg, r.device)
      && BootRequests(r.device) == BootRequests(d)
      && r.replies == [Reply(Offset, 0)]
  {
    hide LittleEndian;
    hide DataWord;
    CommandWords(CMD_START, total);
  }

  /** A START the library accepts begins a clean transfer exactly when none was under way, or the one
      under way had not brought a single byte; otherwise the old bytes and their count stay. (The laser
      begins afresh every time.) */
  lemma LibraryRestartExact(cfg: Config, d: Library, total: Word)
    requires cfg.Valid() && |d.keybuf| == KEY_LEN
    requires !(cfg.keyhash.Some? && KeyLoaded(d) && d.keybuf != cfg.keyhash.value)
    ensures
      var r := Handle(cfg, d, Command(CMD_START, total), SOUND);
      && r.replies == [Reply(Offset, 0)]
      && (Receiving(OfLibrary(r.device), [], total) <==>
            !d.initialized || (d.written == 0 && d.img.Contents() == [] && d.img.erased))
  {
    hide LittleEndian;
    hide DataWord;
    CommandWords(CMD_START, total);
  }

  /** The answer to a data frame, by the number of bytes taken in so far. */
  function ProgressReply(n: nat, total: Word): seq<Reply>
    requires n <= total
  {
    if n == total then [Reply(UpdateSuccess, total)] else if n % 64 == 0 then [Reply(Offset, n)] else []
  }

  lemma DataAccepted(cfg: Config, d: Device, got: Bytes, total: Word, data: Bytes)
    requires ValidDevice(cfg, d) && Receiving(d, got, total)
    requires |got| + |data| <= total && |got| + |data| <= cfg.slot.capacity
    ensures
      var r := DeviceHandle(cfg, d, Frame(FW_DATA_RX, data));
      && ValidDevice(cfg, r.device) && Receiving(r.device, got + data, total)
      && Refuses(cfg, r.device) == Refuses(cfg, d)
      && BootRequests(r.device) == BootRequests(d)
      && r.replies == ProgressReply(|got| + |data|, total)
  {
    hide BufferedWrite;
    WriteAppends(cfg.slot, SlotOf(d), data, false);
    assert Plus(|got|, |data|) == |got| + |data|;
  }

  lemma ConfirmAccepted(cfg: Config, d: Device, got: Bytes, total: Word, permanent: Word)
    requires ValidDevice(cfg, d) && Receiving(d, got, total) && |got| == total && |got| <= cfg.slot.capacity
    ensures
      var r := DeviceHandle(cfg, d, Command(CMD_CONFIRM, permanent));
      && ValidDevice(cfg, r.device) && !Busy(r.device) && Refuses(cfg, r.device) == Refuses(cfg, d)
      && Shows(SlotOf(r.device), got)
      && BootRequests(r.device) == BootRequests(d) + [permanent]
      && r.replies == [Reply(Confirm, CONFIRMED)]
  {
    hide LittleEndian;
    hide DataWord;
    hide BufferedWrite;
    CommandWords(CMD_CONFIRM, permanent);
    WriteAppends(cfg.slot, SlotOf(d), [], true);
    assert got + [] == got;
  }

  /** The library does not look at the result of its erase: the slot of an accepted transfer is erased exactly if
      the erase succeeded, and a START in the middle of a transfer does not erase at all. What the laser accepts is
      erased. */
  lemma StartErases(cfg: Config, d: Library, l: Laser, frame: Frame, hw: Hardware)
    ensures
      var (a, b) := (HandleStart(cfg, d, frame, hw), LaserStart(l, frame, hw));
      && (a.replies == [Reply(Offset, 0)] ==> a.device.img.erased == if d.initialized then d.img.erased else hw.eraseOk)
      && (b.replies == [Reply(Offset, 0)] ==> b.device.img.erased)
  {
    hide DataWord;
  }

  /** A flush is skipped over: without it, what was pending stays out of the slot. */
  lemma FlushExact(slot: Slot, img: Image, flashOk: bool)
    requires slot.block > 0 && |img.Contents()| <= slot.capacity
    ensures
      var r := BufferedWrite(slot, img, [], true, flashOk);
      var after := if r.Some? then r.value else img;
      && after.Contents() == img.Contents() && after.erased == img.erased
      && (after.flushed == img.Contents() <==> flashOk || img.pending == [])
  {
    if flashOk {
      WriteAppends(slot, img, [], true);
      assert img.Contents() + [] == img.Contents();
    } else {
      assert |img.Contents()| == |img.flushed| + |img.pending|;
      assert img.pending == [] ==> img.Contents() == img.flushed;
    }
  }

  /** The library's CONFIRM looks neither at its flush nor at how the slot was erased: with all bytes in, it
      confirms exactly when the boot request is accepted, and the slot shows the image exactly when it had been
      erased and the flush succeeded or there was nothing left to flush. */
  lemma LibraryConfirmExact(cfg: Config, d: Library, permanent: Word, hw: Hardware)
    requires cfg.Valid() && |d.keybuf| == KEY_LEN && |d.img.Contents()| <= cfg.slot.capacity
    requires d.initialized && d.written == d.total == |d.img.Contents()|
    ensures
      var r := Handle(cfg, d, Command(CMD_CONFIRM, permanent), hw);
      && r.replies == [if hw.bootOk then Reply(Confirm, CONFIRMED) else Reply(TransferError, 0)]
      && r.device.bootRequests == d.bootRequests + (if hw.bootOk then [permanent] else [])
      && (Shows(r.device.img, d.img.Contents()) <==> d.img.erased && (hw.flashOk || d.img.pending == []))
  {
    hide LittleEndian;
    hide DataWord;
    hide BufferedWrite;
    CommandWords(CMD_CONFIRM, permanent);
    FlushExact(cfg.slot, d.img, hw.flashOk);
  }

  /** The laser counts what the flush has brought into the slot: with all bytes in, it confirms, and requests the
      boot, exactly when the flush succeeded or there was nothing left to flush, and then an erased slot, which is
      the only one it accepts, shows the image. */
  lemma LaserConfirmExact(cfg: Config, l: Laser, permanent: Word, hw: Hardware)
    requires cfg.Valid() && |l.img.Contents()| <= cfg.slot.capacity && l.total == |l.img.Contents()|
    ensures
      var r := LaserHandle(cfg, l, Command(CMD_CONFIRM, permanent), hw);
      && (r.replies == [Reply(Confirm, CONFIRMED)] <==> hw.flashOk || l.img.pending == [])
      && (l.img.erased ==>
            (r.replies == [Reply(Confirm, CONFIRMED)] <==> Shows(r.device.img, l.img.Contents())))
      && r.device.bootRequests ==
           l.bootRequests + (if hw.flashOk || l.img.pending == [] then [permanent] else [])
  {
    hide LittleEndian;
    hide DataWord;
    hide BufferedWrite;
    CommandWords(CMD_CONFIRM, permanent);
    FlushExact(cfg.slot, l.img, hw.flashOk);
    var r := LaserHandle(cfg, l, Command(CMD_CONFIRM, permanent), hw);
    assert r.device.img.Contents() == l.img.Contents();
    assert |r.device.img.flushed| == l.total ==> r.device.img.flushed == l.img.Contents() by {
      assert r.device.img.flushed <= r.device.img.Contents();
    }
  }

  /** A CONFIRM ends the transfer, in whatever state it finds the library, whatever the hardware does and whatever it
      answers: data or another CONFIRM behind it gets an error and requests no boot. */
  lemma ConfirmEnds(cfg: Config, d: Library, confirm: Frame, hw: Hardware, next: Frame, hw': Hardware)
    requires cfg.Valid() && |d.keybuf| == KEY_LEN
    requires confirm.id == 0x101 && DataWord(confirm, 0) == 1
    requires next.id == 0x103 || (next.id == 0x101 && DataWord(next, 0) == 1)
    ensures
      var c := Handle(cfg, d, confirm, hw).device;
      && !c.initialized && |c.keybuf| == KEY_LEN
      && var r := Handle(cfg, c, next, hw');
      && r.replies == [Reply(TransferError, 0)] && r.device == c
  {
    hide DataWord;
    hide BufferedWrite;
  }

  /** As long as a chunk is missing, whatever the others were, a START is accepted without a look at the key. */
  lemma IncompleteKeyPasses(cfg: Config, d: Library, key: Bytes, order: seq<nat>, missing: nat, size: Word)
    requires cfg.Valid() && |key| == 32 == |d.keybuf| && forall i :: i in order ==> i < 5
    requires missing < 5 && missing !in order && missing !in d.keyChunks
    ensures
      var loaded := LoadKey(d, key, order);
      && |loaded.keybuf| == KEY_LEN
      && Handle(cfg, loaded, Command(CMD_START, size), SOUND).replies == [Reply(Offset, 0)]
  {
    hide LittleEndian;
    hide DataWord;
    hide HandleKeyhash;
    LoadedChunksHeld(d, key, order, {});
    NotLoaded(d, key, order, missing);
    CommandWords(CMD_START, size);
  }

  lemma {:induction false} NotLoaded(d: Library, key: Bytes, order: seq<nat>, missing: nat)
    requires |key| == KEY_LEN == |d.keybuf| && forall i :: i in order ==> i < KEY_CHUNKS
    requires missing !in order && missing !in d.keyChunks
    ensures missing !in LoadKey(d, key, order).keyChunks
    decreases |order|
  {
    if order != [] {
      assert order[0] in order && forall i :: i in order[1..] ==> i in order;
      LoadOneChunk(d, key, order[0]);
      NotLoaded(HandleKeyhash(d, KeyFrame(key, order[0])).device, key, order[1..], missing);
    }
  }

  // ---------------------------------------------------------------------------
  // Everything else
  // ---------------------------------------------------------------------------

  /** A key frame needs a number below five and its whole chunk, seven bytes or the last four; else it is ignored. */
  predicate WholeChunk(frame: Frame) {
    frame.data != [] && frame.data[0] < 5 && |frame.data| >= if frame.data[0] < 4 then 8 else 5
  }

  /** What the library says to the frames that do not move a transfer on. Errors have the value 0. */
  lemma LibraryRefuses(cfg: Config, d: Library, frame: Frame, hw: Hardware)
    requires cfg.Valid() && |d.keybuf| == KEY_LEN
    ensures
      var r, w := Handle(cfg, d, frame, hw), DataWord(frame, 0);
      && (frame.id == 0x101 && w == 0 && |frame.data| != 8 ==> r == Handled(d, [Reply(FlashError, 0)]))
      && (frame.id == 0x101 && w == 0 && |frame.data| == 8 && !d.initialized && !hw.flashOk ==>
            r.replies == [Reply(if Refuses(cfg, OfLibrary(d)) then KeyhashError else FlashError, 0)]
            && !r.device.initialized)
      && (frame.id == 0x101 && w == 2 ==> r == Handled(d, [Reply(Version, cfg.versionLen)]))
      && (frame.id == 0x101 && w > 2 ==> r == Handled(d, []))
      && (frame.id == 0x103 && (!d.initialized || !hw.flashOk || !HasRoom(cfg.slot, d.img, frame.data)) ==>
            r == Handled(d, [Reply(if d.initialized then FlashError else TransferError, 0)]))
      && (frame.id == 0x104 && cfg.keyhash.Some? ==>
            && r.replies == [] && r.device == d.(keybuf := r.device.keybuf, keyChunks := r.device.keyChunks)
            && (!WholeChunk(frame) ==> r.device == d))
      && (frame.id !in {0x101, 0x103, 0x104} || (frame.id == 0x104 && cfg.keyhash.None?) ==> r == Handled(d, []))
  {
    hide DataWord;
    hide WholeBlocks;
  }

  /** The same of the laser controller, and its flag, which says that an upgrade is going on: set by an accepted START,
      cleared by a refused one, by a failed write and with the last byte, and left alone by everything else. A START of
      eight bytes begins from nothing even if it is refused. */
  lemma LaserRefuses(cfg: Config, l: Laser, frame: Frame, hw: Hardware)
    requires cfg.Valid()
    ensures
      var r, w := LaserHandle(cfg, l, frame, hw), DataWord(frame, 0);
      && (frame.id == 0x101 && w == 0 ==>
            && r.replies == [Reply(if r.device.updating then Offset else FlashError, 0)]
            && (r.device.updating <==> |frame.data| == 8 && hw.flashOk && hw.eraseOk)
            && (if |frame.data| == 8 then
                  && SlotOf(OfLaser(r.device)).Contents() == [] && r.device.offset == 0
                  && r.device.total == if r.device.updating then DataWord(frame, 1) else 0
                else r.device == l.(updating := false)))
      && (frame.id == 0x101 && w == 1 ==>
            r.device.updating == l.updating
            && (r.replies != [Reply(Confirm, 0x55AA55AA)] ==> r.replies == [Reply(TransferError, l.offset)]))
      && (frame.id == 0x101 && w == 2 ==> r == Handled(l, [Reply(Version, cfg.versionLen)]))
      && (frame.id == 0x101 && w > 2 ==> r == Handled(l, []))
      && (frame.id == 0x103 ==>
            if !hw.flashOk || !HasRoom(cfg.slot, l.img, frame.data) then
              r == Handled(l.(updating := false), [Reply(FlashError, 0)])
            else r.device.updating == (l.updating && Plus(l.offset, |frame.data|) != l.total))
      && (frame.id !in {0x101, 0x103} ==> r == Handled(l, []))
  {
    hide DataWord;
    hide WholeBlocks;
  }
}
