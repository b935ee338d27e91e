/** The bootloader's receiver: it erases the pages an image needs, collects the bytes in a 64-byte
    buffer and programs them one buffer at a time. */
module Bootloader {
  import opened Words
  import opened CanDevice

  const APP_START: Word := 0x0801_0000
  const APP_END: Word := 0x0804_0000
  const APP_SIZE: nat := 0x3_0000
  const BUFFER_SIZE: nat := 64

  // ---------------------------------------------------------------------------
  // The flash
  // ---------------------------------------------------------------------------

  /** An address not among the cells is erased. `misused` records that a cell was programmed without
      having been erased first, or that an operation left the application's part of the flash. */
  datatype Flash = Flash(cells: map<nat, Byte>, misused: bool)

  function Without(cells: map<nat, Byte>, lo: nat, hi: nat): map<nat, Byte> {
    map a | a in cells && !(lo <= a < hi) :: cells[a]
  }

  function Erase(f: Flash, page: Page): Flash {
    Flash(
      Without(f.cells, page.start, page.start + page.size),
      f.misused || page.start < APP_START || page.start + page.size > APP_END)
  }

  predicate Free(f: Flash, addr: nat, n: nat) {
    forall a :: addr <= a < addr + n ==> a !in f.cells && APP_START <= a < APP_END
  }

  function ByteAt(addr: nat, data: Bytes, a: nat): Byte
    requires addr <= a < addr + |data|
  {
    data[a - addr]
  }

  function Program(f: Flash, addr: nat, data: Bytes): Flash {
    Flash(
      f.cells + (map a: nat | addr <= a < addr + |data| :: ByteAt(addr, data, a)),
      f.misused || !Free(f, addr, |data|))
  }

  /** The flash shows exactly these bytes from the application's start on. */
  ghost predicate Holds(f: Flash, bytes: Bytes) {
    forall j :: 0 <= j < |bytes| ==> HoldsAt(f, APP_START + j, bytes[j])
  }

  ghost predicate HoldsAt(f: Flash, addr: nat, b: Byte) {
    addr in f.cells && f.cells[addr] == b
  }

  // ---------------------------------------------------------------------------
  // Pages
  // ---------------------------------------------------------------------------

  datatype Page = Page(start: nat, size: nat)

  ghost predicate Increasing(bounds: seq<nat>) {
    forall i, j :: 0 <= i < j < |bounds| ==> bounds[i] < bounds[j]
  }

  /** The flash is tiled by pages, and the application's part starts and ends with a page. */
  ghost predicate Tiling(bounds: seq<nat>) {
    Increasing(bounds) && APP_START in bounds && APP_END in bounds
  }

  /** `flash_get_page_info_by_offs`; None when no page holds the address. */
  function PageOf(bounds: seq<nat>, addr: nat): (page: Option<Page>)
    requires Increasing(bounds)
    ensures page.Some? ==> page.value.size > 0 && page.value.start <= addr < page.value.start + page.value.size
  {
    if |bounds| < 2 then None
    else if bounds[0] <= addr < bounds[1] then Some(Page(bounds[0], bounds[1] - bounds[0]))
    else PageOf(bounds[1..], addr)
  }

  /** A boundary below another one starts a page, and that page ends at the next boundary. */
  lemma {:induction false} PageAt(bounds: seq<nat>, addr: nat, above: nat)
    requires Increasing(bounds) && addr in bounds && above in bounds && addr < above
    ensures
      var page := PageOf(bounds, addr);
      && page.Some? && page.value.start == addr
      && addr + page.value.size in bounds
      && forall b :: b in bounds ==> b <= addr || addr + page.value.size <= b
    decreases |bounds|
  {
    if bounds[0] == addr {
      assert bounds[1] in bounds;
    } else {
      assert bounds[0] < addr;
      assert forall b :: b in bounds <==> b == bounds[0] || b in bounds[1..];
      PageAt(bounds[1..], addr, above);
    }
  }

  /** The first boundary not below `x`. */
  function Ceiling(bounds: seq<nat>, x: nat): (c: nat)
    requires Increasing(bounds) && exists b :: b in bounds && x <= b
    ensures c in bounds && x <= c && forall b :: b in bounds && x <= b ==> c <= b
  {
    if x <= bounds[0] then bounds[0]
    else
      assert forall b :: b in bounds <==> b == bounds[0] || b in bounds[1..];
      Ceiling(bounds[1..], x)
  }

  /** Whether the `k`th flash operation caused by a frame succeeds. */
  predicate Ok(outcomes: seq<bool>, k: nat) {
    k < |outcomes| ==> outcomes[k]
  }

  ghost predicate AllOk(outcomes: seq<bool>) {
    forall k: nat :: Ok(outcomes, k)
  }

  datatype Erasure = Erasure(flash: Flash, ok: bool)

  /** What of `size` a page leaves to be erased. */
  function Rest(size: nat, page: Page): nat {
    if page.size <= size then size - page.size else 0
  }

  /** The erase loop, from address `addr` with `size` bytes still to cover. */
  function ErasePages(bounds: seq<nat>, f: Flash, addr: nat, size: nat, outcomes: seq<bool>, k: nat): Erasure
    requires Increasing(bounds)
    decreases size
  {
    if size == 0 then Erasure(f, true)
    else
      match PageOf(bounds, addr)
      case None => Erasure(f, false)
      case Some(page) =>
        if !Ok(outcomes, k) then Erasure(f, false)
        else
          ErasePages(bounds, Erase(f, page), addr + page.size, Rest(size, page), outcomes, k + 1)
  }

  lemma WithoutTwice(cells: map<nat, Byte>, a: nat, b: nat, c: nat)
    requires a <= b <= c
    ensures Without(Without(cells, a, b), b, c) == Without(cells, a, c)
  {
  }

  lemma WithoutNothing(cells: map<nat, Byte>, a: nat)
    ensures Without(cells, a, a) == cells
  {
  }

  /** One turn of the loop takes off one whole page, and what is then left to do ends at the same boundary. */
  lemma OnePage(bounds: seq<nat>, f: Flash, addr: nat, size: nat)
    requires Tiling(bounds) && addr in bounds && APP_START <= addr && 0 < size && addr + size <= APP_END
    ensures
      var page := PageOf(bounds, addr);
      && page.Some?
      && var next := addr + page.value.size;
      && next in bounds && next <= APP_END && next + Rest(size, page.value) <= APP_END
      && Erase(f, page.value) == Flash(Without(f.cells, addr, next), f.misused)
      && Ceiling(bounds, next + Rest(size, page.value)) == Ceiling(bounds, addr + size)
  {
    hide Ceiling;
    hide PageOf;
    PageAt(bounds, addr, APP_END);
  }

  /** The loop erases whole consecutive pages, up to the first boundary that covers what is asked for,
      and nothing else. */
  lemma {:induction false} ErasesWholePages(bounds: seq<nat>, f: Flash, addr: nat, size: nat,
                                            outcomes: seq<bool>, k: nat)
    requires Tiling(bounds) && AllOk(outcomes)
    requires addr in bounds && APP_START <= addr && addr + size <= APP_END
    ensures
      var end := Ceiling(bounds, addr + size);
      && end <= APP_END
      && ErasePages(bounds, f, addr, size, outcomes, k) == Erasure(Flash(Without(f.cells, addr, end), f.misused), true)
    decreases size
  {
    hide Ceiling;
    hide Without;
    hide PageOf;
    var end := Ceiling(bounds, addr + size);
    if size == 0 {
      assert end == addr;
      WithoutNothing(f.cells, addr);
    } else {
      OnePage(bounds, f, addr, size);
      hide Erase;
      var page := PageOf(bounds, addr).value;
      ErasesWholePages(bounds, Erase(f, page), addr + page.size, Rest(size, page), outcomes, k + 1);
      WithoutTwice(f.cells, addr, addr + page.size, end);
    }
  }

  // ---------------------------------------------------------------------------
  // One frame
  // ---------------------------------------------------------------------------

  /** `buffer` is the part of the 64-byte buffer in use. */
  datatype Boot = Boot(flash: Flash, buffer: Bytes, addr: Word, total: Word, received: Word)

  datatype Outcome = Outcome(boot: Boot, replies: seq<Reply>, jumped: bool)

  function Start(bounds: seq<nat>, d: Boot, frame: Frame, outcomes: seq<bool>): (r: Outcome)
    requires Increasing(bounds)
    ensures !r.jumped
  {
    if |frame.data| != 8 then Outcome(d, [Reply(FlashError, 0)], false)
    else
      var total := DataWord(frame, 1);
      var r := ErasePages(bounds, d.flash, APP_START, Min(total, APP_SIZE), outcomes, 0);
      Outcome(Boot(r.flash, [], APP_START, total, 0), [Reply(if r.ok then Offset else FlashError, 0)], false)
  }

  /** The buffer is programmed, if the flash is willing, and empty afterwards. */
  function Flush(d: Boot, ok: bool): Boot {
    d.(flash := if ok then Program(d.flash, d.addr, d.buffer) else d.flash,
       addr := Plus(d.addr, |d.buffer|),
       buffer := [])
  }

  function Conclude(d: Boot, outcomes: seq<bool>): Outcome {
    var d := if d.buffer != [] then Flush(d, Ok(outcomes, 0)) else d;
    if d.received != d.total then Outcome(d, [Reply(TransferError, d.received)], false)
    else Outcome(d, [Reply(Confirm, CONFIRMED)], true)
  }

  /** What is answered after a buffer has been programmed. */
  function Progress(d: Boot): seq<Reply> {
    if d.received >= d.total then [Reply(UpdateSuccess, d.received)]
    else if d.received % 4096 == 0 then []
    else if d.received % 64 == 0 then [Reply(Offset, d.received)]
    else []
  }

  function TakeByte(d: Boot, b: Byte): Boot
    requires d.received < d.total
  {
    d.(buffer := d.buffer + [b], received := d.received + 1)
  }

  predicate MustFlush(d: Boot) {
    |d.buffer| >= BUFFER_SIZE || d.received >= d.total
  }

  /** The loop over the bytes of a data frame, `k` flash operations into it. */
  function TakeBytes(d: Boot, data: Bytes, outcomes: seq<bool>, k: nat): (r: Outcome)
    ensures !r.jumped
    decreases |data|
  {
    if data == [] || d.received >= d.total then Outcome(d, [], false)
    else
      var d := TakeByte(d, data[0]);
      if !MustFlush(d) then TakeBytes(d, data[1..], outcomes, k)
      else if !Ok(outcomes, k) then Outcome(d, [Reply(FlashError, d.received)], false)
      else
        var e := Flush(d, true);
        var r := TakeBytes(e, data[1..], outcomes, k + 1);
        Outcome(r.boot, Progress(e) + r.replies, false)
  }

  /** A frame the code would answer by writing past its buffer. */
  predicate Overruns(d: Boot, frame: Frame) {
    frame.id == FW_DATA_RX && frame.data != [] && d.received < d.total && |d.buffer| >= BUFFER_SIZE
  }

  function Update(bounds: seq<nat>, d: Boot, frame: Frame, outcomes: seq<bool>, version: Word): Outcome
    requires Increasing(bounds) && !Overruns(d, frame)
  {
    if frame.id == PLATFORM_RX then
      var cmd := DataWord(frame, 0);
      if cmd == CMD_START then Start(bounds, d, frame, outcomes)
      else if cmd == CMD_CONFIRM then Conclude(d, outcomes)
      else if cmd == CMD_VERSION then Outcome(d, [Reply(Version, version)], false)
      else Outcome(d, [], false)
    else if frame.id == FW_DATA_RX then TakeBytes(d, frame.data, outcomes, 0)
    else Outcome(d, [], false)
  }

  // ---------------------------------------------------------------------------
  // The writer's invariant
  // ---------------------------------------------------------------------------

  /** How many bytes of the image have left the buffer. */
  function Written(d: Boot): int {
    d.received - |d.buffer|
  }

  /** The counters, and the buffer's part in them; `offered` is all the data since the START. */
  ghost predicate Counters(d: Boot, offered: Bytes) {
    && |d.buffer| <= BUFFER_SIZE && |d.buffer| <= d.received
    && d.received == Min(|offered|, d.total)
    && d.addr == Plus(APP_START, Written(d))
    && d.buffer == offered[Written(d)..d.received]
  }

  /** The flash's part: `clean` says that it had not been misused before the START. */
  ghost predicate Programmed(d: Boot, offered: Bytes, clean: bool)
    requires 0 <= Written(d) <= |offered|
  {
    && (d.flash.misused <==> !clean || Written(d) > APP_SIZE)
    && (Written(d) <= APP_SIZE ==> Holds(d.flash, offered[..Written(d)]))
    && forall a :: APP_START + Written(d) <= a < APP_START + Min(d.total, APP_SIZE) ==> a !in d.flash.cells
  }

  /** In the middle of a frame, where the buffer may be full. */
  ghost predicate Loaded(d: Boot, offered: Bytes, clean: bool) {
    Counters(d, offered) && Programmed(d, offered, clean)
  }

  ghost predicate Inv(d: Boot, offered: Bytes, clean: bool) {
    Loaded(d, offered, clean) && |d.buffer| < BUFFER_SIZE && (d.received == d.total ==> d.buffer == [])
  }

  /** Where the cells are erased, a write is free exactly when it ends inside the application's part. */
  lemma FreeExact(f: Flash, addr: nat, n: nat, size: nat)
    requires APP_START <= addr <= APP_END && n > 0
    requires forall a :: addr <= a < APP_START + Min(size, APP_SIZE) ==> a !in f.cells
    requires addr + n <= APP_START + size
    ensures Free(f, addr, n) <==> addr + n <= APP_END
  {
    if addr + n > APP_END {
      var outside: nat := APP_END;
      assert addr <= outside < addr + n && !(outside !in f.cells && outside < APP_END);
    }
  }

  lemma ProgramHolds(f: Flash, addr: nat, data: Bytes, all: Bytes, w: nat)
    requires addr == APP_START + w && w + |data| <= |all|
    requires Holds(f, all[..w]) && data == all[w..w + |data|]
    ensures Holds(Program(f, addr, data), all[..w + |data|])
  {
    var g, shown := Program(f, addr, data), all[..w + |data|];
    forall j | 0 <= j < |shown|
      ensures HoldsAt(g, APP_START + j, shown[j])
    {
      if j < w {
        assert HoldsAt(f, APP_START + j, all[..w][j]);
      } else {
        assert ByteAt(addr, data, APP_START + j) == all[j];
      }
    }
  }

  lemma ProgramKeepsErased(f: Flash, addr: nat, data: Bytes, end: nat)
    requires forall a :: addr <= a < end ==> a !in f.cells
    ensures forall a :: addr + |data| <= a < end ==> a !in Program(f, addr, data).cells
  {
  }

  lemma ProgramAppends(d: Boot, offered: Bytes, clean: bool)
    requires Loaded(d, offered, clean) && d.buffer != [] && Written(d) <= APP_SIZE
    ensures
      var f := Program(d.flash, d.addr, d.buffer);
      && Holds(f, offered[..d.received])
      && (f.misused <==> d.flash.misused || d.received > APP_SIZE)
      && forall a :: APP_START + d.received <= a < APP_START + Min(d.total, APP_SIZE) ==> a !in f.cells
  {
    var w := Written(d);
    assert d.addr == APP_START + w;
    ProgramHolds(d.flash, d.addr, d.buffer, offered, w);
    ProgramKeepsErased(d.flash, d.addr, d.buffer, APP_START + Min(d.total, APP_SIZE));
    FreeExact(d.flash, d.addr, |d.buffer|, d.total);
    ProgramMisuses(d.flash, d.addr, d.buffer);
    hide Holds;
    hide Free;
    hide Program;
  }

  lemma ProgramMisuses(f: Flash, addr: nat, data: Bytes)
    ensures Program(f, addr, data).misused <==> f.misused || !Free(f, addr, |data|)
  {
  }

  lemma FlushProgresses(d: Boot, offered: Bytes, clean: bool)
    requires Loaded(d, offered, clean) && d.buffer != []
    ensures Inv(Flush(d, true), offered, clean)
  {
    hide Program;
    hide Holds;
    var e := Flush(d, true);
    PlusPlus(APP_START, Written(d), |d.buffer|);
    assert e.buffer == offered[Written(e)..e.received];
    if Written(d) <= APP_SIZE {
      ProgramAppends(d, offered, clean);
    } else {
      FlushOutside(d);
    }
  }

  lemma FlushOutside(d: Boot)
    ensures d.flash.misused ==> Program(d.flash, d.addr, d.buffer).misused
  {
  }

  lemma ByteLoads(d: Boot, offered: Bytes, clean: bool, b: Byte)
    requires Inv(d, offered, clean) && d.received < d.total
    ensures Loaded(TakeByte(d, b), offered + [b], clean)
  {
    hide Holds;
    var e, more := TakeByte(d, b), offered + [b];
    assert more[..Written(d)] == offered[..Written(d)];
    assert e.buffer == more[Written(e)..e.received];
  }

  lemma ExtraIgnored(d: Boot, offered: Bytes, clean: bool, data: Bytes)
    requires Inv(d, offered, clean) && (data == [] || d.received >= d.total)
    ensures Inv(d, offered + data, clean)
  {
    hide Holds;
    assert (offered + data)[..Written(d)] == offered[..Written(d)];
    assert data == [] ==> offered + data == offered;
  }

  lemma {:induction false} TakeBytesKeepsInv(d: Boot, offered: Bytes, clean: bool, data: Bytes,
                                             outcomes: seq<bool>, k: nat)
    requires Inv(d, offered, clean) && AllOk(outcomes)
    ensures
      var r := TakeBytes(d, data, outcomes, k);
      && Inv(r.boot, offered + data, clean) && r.boot.total == d.total
      && forall reply :: reply in r.replies ==>
           reply.code == Offset || (reply == Reply(UpdateSuccess, d.total) && r.boot.received == d.total)
    decreases |data|
  {
    if data == [] || d.received >= d.total {
      ExtraIgnored(d, offered, clean, data);
    } else {
      hide Loaded;
      hide Flush;
      var e, more := TakeByte(d, data[0]), offered + [data[0]];
      ByteLoads(d, offered, clean, data[0]);
      assert more + data[1..] == offered + data;
      assert e.buffer != [];
      if MustFlush(e) {
        FlushProgresses(e, more, clean);
        FlushCounts(e);
        TakeBytesKeepsInv(Flush(e, true), more, clean, data[1..], outcomes, k + 1);
        if e.received == e.total {
          NothingAfterLast(Flush(e, true), data[1..], outcomes, k + 1);
        }
      } else {
        TakeBytesKeepsInv(e, more, clean, data[1..], outcomes, k);
      }
    }
  }

  lemma FlushCounts(d: Boot)
    ensures Flush(d, true) == Boot(Flush(d, true).flash, [], Flush(d, true).addr, d.total, d.received)
  {
  }

  lemma NothingAfterLast(d: Boot, data: Bytes, outcomes: seq<bool>, k: nat)
    requires d.received == d.total
    ensures TakeBytes(d, data, outcomes, k) == Outcome(d, [], false)
  {
  }

  // ---------------------------------------------------------------------------
  // Every frame keeps it
  // ---------------------------------------------------------------------------

  predicate IsStart(frame: Frame) {
    frame.id == PLATFORM_RX && DataWord(frame, 0) == CMD_START && |frame.data| == 8
  }

  predicate IsConfirm(frame: Frame) {
    frame.id == PLATFORM_RX && DataWord(frame, 0) == CMD_CONFIRM
  }

  /** All the data offered since the last accepted START. */
  function Offered(offered: Bytes, frame: Frame): Bytes {
    if IsStart(frame) then []
    else if frame.id == FW_DATA_RX then offered + frame.data
    else offered
  }

  /** Whatever went wrong before, a START whose erasures succeed begins a sound transfer; it erases
      whole pages that cover the image, and no more of the flash. */
  lemma StartEstablishesInv(bounds: seq<nat>, d: Boot, frame: Frame, outcomes: seq<bool>)
    requires Tiling(bounds) && AllOk(outcomes) && IsStart(frame)
    ensures
      var total, r := DataWord(frame, 1), Start(bounds, d, frame, outcomes);
      var end := Ceiling(bounds, APP_START + Min(total, APP_SIZE));
      && Inv(r.boot, [], !d.flash.misused) && r.boot.total == total
      && r.replies == [Reply(Offset, 0)] && !r.jumped
      && end <= APP_END && r.boot.flash.cells == Without(d.flash.cells, APP_START, end)
  {
    hide ErasePages;
    hide Ceiling;
    hide DataWord;
    var total := DataWord(frame, 1);
    ErasesWholePages(bounds, d.flash, APP_START, Min(total, APP_SIZE), outcomes, 0);
    assert Plus(APP_START, 0) == APP_START;
  }

  /** A CONFIRM empties the buffer into the flash, early or not, and starts the application exactly when
      the whole image has been offered. */
  lemma ConfirmKeepsInv(d: Boot, offered: Bytes, clean: bool, outcomes: seq<bool>)
    requires Inv(d, offered, clean) && AllOk(outcomes)
    ensures
      var r := Conclude(d, outcomes);
      && Inv(r.boot, offered, clean) && r.boot.total == d.total && r.boot.buffer == []
      && (r.jumped <==> |offered| >= d.total)
      && r.replies == if r.jumped then [Reply(Confirm, CONFIRMED)] else [Reply(TransferError, |offered|)]
  {
    hide Programmed;
    hide Flush;
    if d.buffer != [] {
      FlushProgresses(d, offered, clean);
      FlushCounts(d);
    }
  }

  lemma UpdateKeepsInv(bounds: seq<nat>, d: Boot, offered: Bytes, clean: bool, frame: Frame, outcomes: seq<bool>,
                       version: Word)
    requires Tiling(bounds) && AllOk(outcomes) && Inv(d, offered, clean)
    ensures !Overruns(d, frame)
    ensures
      var r := Update(bounds, d, frame, outcomes, version);
      && Inv(r.boot, Offered(offered, frame), if IsStart(frame) then !d.flash.misused else clean)
      && r.boot.total == if IsStart(frame) then DataWord(frame, 1) else d.total
  {
    hide Loaded;
    hide DataWord;
    hide Start;
    hide Conclude;
    hide TakeBytes;
    if IsStart(frame) {
      StartEstablishesInv(bounds, d, frame, outcomes);
    } else if frame.id == FW_DATA_RX {
      TakeBytesKeepsInv(d, offered, clean, frame.data, outcomes, 0);
    } else if IsConfirm(frame) {
      ConfirmKeepsInv(d, offered, clean, outcomes);
    } else {
      OtherFrames(bounds, d, frame, outcomes, version);
    }
  }

  lemma OtherFrames(bounds: seq<nat>, d: Boot, frame: Frame, outcomes: seq<bool>, version: Word)
    requires Increasing(bounds) && !IsStart(frame) && !IsConfirm(frame) && frame.id != FW_DATA_RX
    ensures Update(bounds, d, frame, outcomes, version).boot == d
  {
    hide DataWord;
  }

  /** Any other frame than START, CONFIRM and data changes nothing: a question for the version is answered, a START of
      the wrong length refused, and nothing said to the rest. */
  lemma OtherAnswers(bounds: seq<nat>, d: Boot, frame: Frame, outcomes: seq<bool>, version: Word)
    requires Increasing(bounds) && !IsConfirm(frame) && frame.id != 0x103
    requires !(frame.id == 0x101 && DataWord(frame, 0) == 0 && |frame.data| == 8)
    ensures
      Update(bounds, d, frame, outcomes, version) == Outcome(
        d,
        if frame.id != 0x101 then [] else if DataWord(frame, 0) == 0 then [Reply(FlashError, 0)]
        else if DataWord(frame, 0) == 2 then [Reply(Version, version)] else [],
        false)
  {
    hide DataWord;
  }

  // ---------------------------------------------------------------------------
  // Errors are reported
  // ---------------------------------------------------------------------------

  /** The pages that begin from `lo` on and below `hi`. */
  ghost function Pages(bounds: seq<nat>, lo: nat, hi: nat): set<nat> {
    set b | b in bounds && lo <= b < hi
  }

  lemma NextPage(bounds: seq<nat>, addr: nat, size: nat)
    requires Tiling(bounds) && addr in bounds && APP_START <= addr && 0 < size && addr + size <= APP_END
    ensures
      var page := PageOf(bounds, addr);
      && page.Some?
      && var next := addr + page.value.size;
      && addr !in Pages(bounds, next, next + Rest(size, page.value))
      && Pages(bounds, addr, addr + size) == {addr} + Pages(bounds, next, next + Rest(size, page.value))
  {
    hide PageOf;
    PageAt(bounds, addr, APP_END);
  }

  /** The flash operations from the `k`th on, `n` of them, succeed. */
  ghost predicate Succeed(outcomes: seq<bool>, k: nat, n: nat) {
    forall i: nat :: k <= i < k + n ==> Ok(outcomes, i)
  }

  lemma OneSucceeds(outcomes: seq<bool>, k: nat, n: nat)
    ensures Succeed(outcomes, k, n + 1) <==> Ok(outcomes, k) && Succeed(outcomes, k + 1, n)
  {
  }

  /** The loop succeeds if and only if the erasures of all the pages it is to erase do. */
  lemma {:induction false} EraseOkExact(bounds: seq<nat>, f: Flash, addr: nat, size: nat, outcomes: seq<bool>, k: nat)
    requires Tiling(bounds) && addr in bounds && APP_START <= addr && addr + size <= APP_END
    ensures
      ErasePages(bounds, f, addr, size, outcomes, k).ok <==>
      Succeed(outcomes, k, |Pages(bounds, addr, addr + size)|)
    decreases size
  {
    hide PageOf;
    hide Ok;
    if size == 0 {
      assert Pages(bounds, addr, addr) == {};
    } else {
      PageCounted(bounds, f, addr, size);
      var page := PageOf(bounds, addr).value;
      var next, rest := addr + page.size, Rest(size, page);
      hide Erase;
      hide Rest;
      hide Pages;
      hide Tiling;
      EraseOkExact(bounds, Erase(f, page), next, rest, outcomes, k + 1);
      OneSucceeds(outcomes, k, |Pages(bounds, next, next + rest)|);
      hide Succeed;
    }
  }

  lemma PageCounted(bounds: seq<nat>, f: Flash, addr: nat, size: nat)
    requires Tiling(bounds) && addr in bounds && APP_START <= addr && 0 < size && addr + size <= APP_END
    ensures
      var page := PageOf(bounds, addr);
      && page.Some?
      && var next, rest := addr + page.value.size, Rest(size, page.value);
      && next in bounds && APP_START <= next && next + rest <= APP_END && rest < size
      && |Pages(bounds, addr, addr + size)| == |Pages(bounds, next, next + rest)| + 1
  {
    hide PageOf;
    OnePage(bounds, f, addr, size);
    PageAt(bounds, addr, APP_END);
    NextPage(bounds, addr, size);
    hide Pages;
  }

  /** A START of eight bytes begins a transfer in any case, and is answered OFFSET 0 if and only if every page that the
      image needs could be erased, with FLASH_ERROR 0 otherwise. */
  lemma StartAnswerExact(bounds: seq<nat>, d: Boot, total: Word, outcomes: seq<bool>, version: Word)
    requires Tiling(bounds)
    ensures
      var r := Update(bounds, d, Command(CMD_START, total), outcomes, version);
      var needed := Pages(bounds, 0x0801_0000, 0x0801_0000 + Min(total, 0x3_0000));
      && r.replies == [Reply(if Succeed(outcomes, 0, |needed|) then Offset else FlashError, 0)]
      && r.boot == Boot(r.boot.flash, [], 0x0801_0000, total, 0) && !r.jumped
  {
    hide LittleEndian;
    hide DataWord;
    hide ErasePages;
    hide Pages;
    hide Succeed;
    CommandWords(CMD_START, total);
    EraseOkExact(bounds, d.flash, APP_START, Min(total, APP_SIZE), outcomes, 0);
  }

  /** A buffer that ought to have been programmed and still is in the buffer. */
  predicate Stuck(d: Boot) {
    d.buffer != [] && (|d.buffer| >= 64 || d.received >= d.total)
  }

  /** A failed write is reported, with the count at that point, and by nothing else; the frame ends there. */
  lemma {:induction false} WriteErrorReported(d: Boot, data: Bytes, outcomes: seq<bool>, k: nat)
    requires !Stuck(d)
    ensures
      var r := TakeBytes(d, data, outcomes, k);
      && (Stuck(r.boot) <==> r.replies != [] && r.replies[|r.replies| - 1].code == FlashError)
      && (Stuck(r.boot) ==> r.replies[|r.replies| - 1] == Reply(FlashError, r.boot.received))
      && (!Stuck(r.boot) && d.received <= d.total ==> r.boot.received == Min(d.received + |data|, d.total))
    decreases |data|
  {
    hide Program;
    hide Plus;
    if data != [] && d.received < d.total {
      var e := TakeByte(d, data[0]);
      if !MustFlush(e) {
        WriteErrorReported(e, data[1..], outcomes, k);
      } else if Ok(outcomes, k) {
        WriteErrorReported(Flush(e, true), data[1..], outcomes, k + 1);
      }
    }
  }

  /** Success is reported, and the application started, only when the flash holds the whole image:
      the first `total` bytes offered since the START. */
  lemma SuccessMeansWhole(bounds: seq<nat>, d: Boot, offered: Bytes, clean: bool, frame: Frame, outcomes: seq<bool>,
                          version: Word)
    requires Tiling(bounds) && AllOk(outcomes) && Inv(d, offered, clean) && d.total <= APP_SIZE && !IsStart(frame)
    requires !Overruns(d, frame)
    ensures
      var r, all := Update(bounds, d, frame, outcomes, version), Offered(offered, frame);
      && (r.jumped <==> IsConfirm(frame) && |offered| >= d.total)
      && (r.jumped || (exists v :: Reply(UpdateSuccess, v) in r.replies) ==>
            |all| >= d.total && Holds(r.boot.flash, all[..d.total]))
  {
    hide DataWord;
    hide Holds;
    hide Conclude;
    hide TakeBytes;
    hide Update;
    UpdateKeepsInv(bounds, d, offered, clean, frame, outcomes, version);
    UpdateDispatches(bounds, d, frame, outcomes, version);
    if frame.id == FW_DATA_RX {
      TakeBytesKeepsInv(d, offered, clean, frame.data, outcomes, 0);
    } else if IsConfirm(frame) {
      ConfirmKeepsInv(d, offered, clean, outcomes);
    }
  }

  lemma UpdateDispatches(bounds: seq<nat>, d: Boot, frame: Frame, outcomes: seq<bool>, version: Word)
    requires Increasing(bounds) && !IsStart(frame) && !Overruns(d, frame)
    ensures
      var r := Update(bounds, d, frame, outcomes, version);
      if frame.id == FW_DATA_RX then r == TakeBytes(d, frame.data, outcomes, 0) && !r.jumped
      else if IsConfirm(frame) then r == Conclude(d, outcomes)
      else !r.jumped && forall v :: Reply(UpdateSuccess, v) !in r.replies
  {
    hide DataWord;
  }

  // ---------------------------------------------------------------------------
  // Whole runs
  // ---------------------------------------------------------------------------

  /** Where a list of frames leads, each with the outcomes of its flash operations; None once the buffer
      has been overrun. */
  function Run(bounds: seq<nat>, d: Boot, frames: seq<Frame>, outcomes: seq<seq<bool>>, version: Word): Option<Boot>
    requires Increasing(bounds) && |outcomes| == |frames|
    decreases |frames|
  {
    if frames == [] then Some(d)
    else
      var last := |frames| - 1;
      match Run(bounds, d, frames[..last], outcomes[..last], version)
      case None => None
      case Some(e) =>
        if Overruns(e, frames[last]) then None
        else Some(Update(bounds, e, frames[last], outcomes[last], version).boot)
  }

  function AllOffered(offered: Bytes, frames: seq<Frame>): Bytes {
    if frames == [] then offered
    else Offered(AllOffered(offered, frames[..|frames| - 1]), frames[|frames| - 1])
  }

  /** No flash operation has failed since the last accepted START, the START's own included. */
  ghost predicate SoundSinceStart(frames: seq<Frame>, outcomes: seq<seq<bool>>)
    requires |outcomes| == |frames|
    decreases |frames|
  {
    frames != [] ==>
      var last := |frames| - 1;
      AllOk(outcomes[last]) && (!IsStart(frames[last]) ==> SoundSinceStart(frames[..last], outcomes[..last]))
  }

  ghost predicate NeverFails(outcomes: seq<seq<bool>>) {
    forall i :: 0 <= i < |outcomes| ==> AllOk(outcomes[i])
  }

  /** After reset, whatever the flash holds. */
  function PowerOn(cells: map<nat, Byte>): Boot {
    Boot(Flash(cells, false), [], APP_START, 0, 0)
  }

  lemma PowerOnInv(cells: map<nat, Byte>)
    ensures Inv(PowerOn(cells), [], true)
  {
    var none: Bytes := [];
    assert Plus(APP_START, 0) == APP_START;
    assert none[0..0] == none;
  }

  /** Any run from reset, failures of the flash included: whenever none has happened since the last START,
      the writer's invariant holds and the next data frame is taken without overrunning the buffer. */
  lemma {:induction false} SoundTransfers(bounds: seq<nat>, cells: map<nat, Byte>, frames: seq<Frame>,
                                          outcomes: seq<seq<bool>>, version: Word)
    requires Tiling(bounds) && |outcomes| == |frames| && SoundSinceStart(frames, outcomes)
    ensures
      var r := Run(bounds, PowerOn(cells), frames, outcomes, version);
      r.Some? ==>
        && (exists clean :: Inv(r.value, AllOffered([], frames), clean))
        && forall f :: !Overruns(r.value, f)
    decreases |frames|
  {
    hide IsStart;
    hide Update;
    hide Loaded;
    if frames == [] {
      PowerOnInv(cells);
      assert Inv(PowerOn(cells), AllOffered([], frames), true);
    } else {
      var last := |frames| - 1;
      var before := Run(bounds, PowerOn(cells), frames[..last], outcomes[..last], version);
      if before.Some? && !Overruns(before.value, frames[last]) {
        if IsStart(frames[last]) {
          StartsAfresh(bounds, before.value, frames[last], outcomes[last], version);
          var r := Update(bounds, before.value, frames[last], outcomes[last], version).boot;
          assert Inv(r, AllOffered([], frames), !before.value.flash.misused);
        } else {
          SoundTransfers(bounds, cells, frames[..last], outcomes[..last], version);
          var offered := AllOffered([], frames[..last]);
          var clean :| Inv(before.value, offered, clean);
          UpdateKeepsInv(bounds, before.value, offered, clean, frames[last], outcomes[last], version);
          var r := Update(bounds, before.value, frames[last], outcomes[last], version).boot;
          assert Inv(r, AllOffered([], frames), clean);
        }
      }
    }
  }

  lemma StartsAfresh(bounds: seq<nat>, d: Boot, frame: Frame, outcomes: seq<bool>, version: Word)
    requires Tiling(bounds) && AllOk(outcomes) && IsStart(frame)
    ensures !Overruns(d, frame)
    ensures Inv(Update(bounds, d, frame, outcomes, version).boot, [], !d.flash.misused)
    ensures forall offered :: Offered(offered, frame) == []
  {
    hide Start;
    hide DataWord;
    StartEstablishesInv(bounds, d, frame, outcomes);
  }

  /** A run without failures, over any number of transfers, as long as no image announced is larger than
      the application's part: the buffer never overruns, every cell is erased before it is programmed, and
      nothing outside the application's part is touched. */
  lemma {:induction false} RunIsSound(bounds: seq<nat>, cells: map<nat, Byte>, frames: seq<Frame>,
                                      outcomes: seq<seq<bool>>, version: Word)
    requires Tiling(bounds) && |outcomes| == |frames| && NeverFails(outcomes)
    requires forall f :: f in frames && IsStart(f) ==> DataWord(f, 1) <= APP_SIZE
    ensures
      var r := Run(bounds, PowerOn(cells), frames, outcomes, version);
      && r.Some? && !r.value.flash.misused && r.value.total <= APP_SIZE
      && Inv(r.value, AllOffered([], frames), true)
    decreases |frames|
  {
    hide DataWord;
    hide Update;
    hide Holds;
    PowerOnInv(cells);
    if frames != [] {
      var last := |frames| - 1;
      assert frames[last] in frames && forall f :: f in frames[..last] ==> f in frames;
      RunIsSound(bounds, cells, frames[..last], outcomes[..last], version);
      var e := Run(bounds, PowerOn(cells), frames[..last], outcomes[..last], version).value;
      UpdateKeepsInv(bounds, e, AllOffered([], frames[..last]), true, frames[last], outcomes[last], version);
    }
  }

  lemma {:induction false} TransferRuns(bounds: seq<nat>, d: Boot, offered: Bytes, clean: bool, frames: seq<Frame>,
                                        outcomes: seq<seq<bool>>, version: Word)
    requires Tiling(bounds) && |outcomes| == |frames| && NeverFails(outcomes)
    requires Inv(d, offered, clean) && forall f :: f in frames ==> !IsStart(f)
    ensures
      var r := Run(bounds, d, frames, outcomes, version);
      r.Some? && Inv(r.value, AllOffered(offered, frames), clean) && r.value.total == d.total
    decreases |frames|
  {
    hide IsStart;
    hide Update;
    hide Loaded;
    if frames != [] {
      var last := |frames| - 1;
      assert frames[last] in frames && forall f :: f in frames[..last] ==> f in frames;
      TransferRuns(bounds, d, offered, clean, frames[..last], outcomes[..last], version);
      var e := Run(bounds, d, frames[..last], outcomes[..last], version).value;
      UpdateKeepsInv(bounds, e, AllOffered(offered, frames[..last]), clean, frames[last], outcomes[last], version);
    }
  }

  /** One transfer, begun in any state whatever and of any announced size: once the whole image has been
      offered, some cell has been programmed twice or outside the application's part exactly when the
      announced size exceeds that part; otherwise the flash holds the image. */
  lemma OversizeExact(bounds: seq<nat>, d: Boot, start: Frame, erasures: seq<bool>, frames: seq<Frame>,
                      outcomes: seq<seq<bool>>, version: Word)
    requires Tiling(bounds) && |outcomes| == |frames| && AllOk(erasures) && NeverFails(outcomes)
    requires !d.flash.misused && IsStart(start) && forall f :: f in frames ==> !IsStart(f)
    requires |AllOffered([], frames)| >= DataWord(start, 1)
    ensures
      var total := DataWord(start, 1);
      var r := Run(bounds, Start(bounds, d, start, erasures).boot, frames, outcomes, version);
      && r.Some?
      && (r.value.flash.misused <==> total > APP_SIZE)
      && (total <= APP_SIZE ==> Holds(r.value.flash, AllOffered([], frames)[..total]))
  {
    hide Run;
    hide Start;
    hide DataWord;
    hide Holds;
    StartEstablishesInv(bounds, d, start, erasures);
    TransferRuns(bounds, Start(bounds, d, start, erasures).boot, [], true, frames, outcomes, version);
  }

  // ---------------------------------------------------------------------------
  // When the flash fails
  // ---------------------------------------------------------------------------

  lemma {:induction false} ShortOfFull(d: Boot, data: Bytes, outcomes: seq<bool>, k: nat)
    requires |d.buffer| + |data| < BUFFER_SIZE
    ensures var r := TakeBytes(d, data, outcomes, k).boot; |r.buffer| < BUFFER_SIZE
    decreases |data|
  {
    if data != [] && d.received < d.total {
      var e := TakeByte(d, data[0]);
      if MustFlush(e) {
        ShortOfFull(Flush(e, true), data[1..], outcomes, k + 1);
      } else {
        ShortOfFull(e, data[1..], outcomes, k);
      }
    }
  }

  /** A data frame leaves the buffer full, so that the next one writes past it, exactly when the frame
      fills the buffer before the image is complete and the write of the full buffer fails: the code
      reports the failure but does not take its index back. */
  lemma {:induction false} OverrunExact(d: Boot, frame: Frame, outcomes: seq<bool>, next: Frame)
    requires |d.buffer| < BUFFER_SIZE && d.received < d.total
    requires frame.Valid() && next.id == FW_DATA_RX && next.data != []
    ensures
      Overruns(TakeBytes(d, frame.data, outcomes, 0).boot, next) <==>
        && |d.buffer| + |frame.data| >= BUFFER_SIZE
        && d.received + (BUFFER_SIZE - |d.buffer|) < d.total
        && !Ok(outcomes, 0)
    decreases |frame.data|
  {
    if frame.data != [] {
      var e, rest := TakeByte(d, frame.data[0]), frame.data[1..];
      if !MustFlush(e) {
        OverrunExact(e, Frame(frame.id, rest), outcomes, next);
      } else if Ok(outcomes, 0) {
        ShortOfFull(Flush(e, true), rest, outcomes, 1);
      }
    }
  }

  // ---------------------------------------------------------------------------
  // A whole transfer, failures included
  // ---------------------------------------------------------------------------

  /** A CONFIRM that finds bytes in the buffer and fails to program them; the address moves on all the same. */
  predicate LosesPiece(d: Boot, frame: Frame, outcomes: seq<bool>) {
    IsConfirm(frame) && d.buffer != [] && !Ok(outcomes, 0)
  }

  /** The receiver, the bytes it has taken in since the START, and whether a CONFIRM has lost any. */
  datatype Tracked = Tracked(boot: Boot, taken: Bytes, lost: bool)

  lemma {:induction false} TakesPrefix(d: Boot, data: Bytes, outcomes: seq<bool>, k: nat)
    ensures
      var r := TakeBytes(d, data, outcomes, k).boot;
      && r.total == d.total && d.received <= r.received <= d.received + |data|
      && (d.received <= d.total ==>
            && r.received <= d.total
            && (AllOk(outcomes) ==> r.received == Min(d.received + |data|, d.total)))
    decreases |data|
  {
    if data != [] && d.received < d.total {
      var e := TakeByte(d, data[0]);
      if MustFlush(e) {
        FlushCounts(e);
        if Ok(outcomes, k) {
          hide Flush;
          TakesPrefix(Flush(e, true), data[1..], outcomes, k + 1);
        }
      } else {
        TakesPrefix(e, data[1..], outcomes, k);
      }
    }
  }

  /** Some address already passed has not been programmed. */
  ghost predicate Hole(d: Boot) {
    exists a :: APP_START <= a < APP_START + Written(d) && a !in d.flash.cells
  }

  ghost predicate Ahead(d: Boot) {
    forall a :: APP_START + Written(d) <= a < APP_START + d.total ==> a !in d.flash.cells
  }

  ghost predicate Sound(t: Tracked) {
    && Counters(t.boot, t.taken) && |t.taken| <= t.boot.total <= APP_SIZE && Ahead(t.boot)
    && if t.lost then Hole(t.boot) else Holds(t.boot.flash, t.taken[..Written(t.boot)])
  }

  lemma FlushKeepsSound(t: Tracked)
    requires Sound(t) && t.boot.buffer != []
    ensures Sound(t.(boot := Flush(t.boot, true)))
  {
    var d := t.boot;
    var e, w := Flush(d, true), Written(d);
    PlusPlus(APP_START, w, |d.buffer|);
    assert e.buffer == t.taken[Written(e)..e.received];
    assert d.addr == APP_START + w;
    ProgramKeepsErased(d.flash, d.addr, d.buffer, APP_START + d.total);
    if t.lost {
      var a :| APP_START <= a < APP_START + w && a !in d.flash.cells;
      assert a !in e.flash.cells;
    } else {
      ProgramHolds(d.flash, d.addr, d.buffer, t.taken, w);
    }
  }

  /** After a flush that failed, the first byte of the piece stays unprogrammed. */
  lemma LostPieceLeavesHole(t: Tracked)
    requires Sound(t) && t.boot.buffer != []
    ensures Sound(Tracked(Flush(t.boot, false), t.taken, true))
  {
    var d := t.boot;
    var e := Flush(d, false);
    PlusPlus(APP_START, Written(d), |d.buffer|);
    assert e.buffer == t.taken[Written(e)..e.received];
    assert APP_START + Written(d) !in e.flash.cells;
  }

  lemma ByteKeepsSound(t: Tracked, b: Byte)
    requires Sound(t) && |t.boot.buffer| < BUFFER_SIZE && t.boot.received < t.boot.total
    ensures Sound(t.(boot := TakeByte(t.boot, b), taken := t.taken + [b]))
  {
    hide Holds;
    var e, more := TakeByte(t.boot, b), t.taken + [b];
    assert more[..Written(t.boot)] == t.taken[..Written(t.boot)];
    assert e.buffer == more[Written(e)..e.received];
  }

  /** A data frame, whichever of its writes fail. */
  lemma {:induction false} DataKeepsSound(t: Tracked, data: Bytes, outcomes: seq<bool>, k: nat)
    requires Sound(t) && (data == [] || |t.boot.buffer| < BUFFER_SIZE || t.boot.received == t.boot.total)
    ensures
      var r := TakeBytes(t.boot, data, outcomes, k);
      && t.boot.received <= r.boot.received <= t.boot.received + |data| && r.boot.total == t.boot.total
      && Sound(t.(boot := r.boot, taken := t.taken + data[..r.boot.received - t.boot.received]))
      && (forall v :: Reply(UpdateSuccess, v) in r.replies ==> r.boot.received == r.boot.total && r.boot.buffer == [])
    decreases |data|
  {
    TakesPrefix(t.boot, data, outcomes, k);
    if data == [] || t.boot.received == t.boot.total {
      assert data[..0] == [] && t.taken + [] == t.taken;
    } else {
      hide Sound;
      var u := t.(boot := TakeByte(t.boot, data[0]), taken := t.taken + [data[0]]);
      ByteKeepsSound(t, data[0]);
      var r := TakeBytes(t.boot, data, outcomes, k);
      var n := r.boot.received - t.boot.received;
      if !MustFlush(u.boot) {
        DataKeepsSound(u, data[1..], outcomes, k);
        OneThenRest(t.taken, data, n);
      } else if Ok(outcomes, k) {
        FlushKeepsSound(u);
        FlushCounts(u.boot);
        hide Flush;
        var v := u.(boot := Flush(u.boot, true));
        DataKeepsSound(v, data[1..], outcomes, k + 1);
        OneThenRest(t.taken, data, n);
        if u.boot.received == u.boot.total {
          NothingAfterLast(v.boot, data[1..], outcomes, k + 1);
        }
      } else {
        assert data[..1] == [data[0]];
      }
    }
  }

  lemma OneThenRest(taken: Bytes, data: Bytes, n: nat)
    requires 1 <= n <= |data|
    ensures taken + data[..n] == (taken + [data[0]]) + data[1..][..n - 1]
  {
  }

  /** One frame of a transfer. */
  ghost function Follow(bounds: seq<nat>, t: Tracked, frame: Frame, outcomes: seq<bool>, version: Word): Tracked
    requires Increasing(bounds) && !Overruns(t.boot, frame)
  {
    var boot := Update(bounds, t.boot, frame, outcomes, version).boot;
    TakesPrefix(t.boot, frame.data, outcomes, 0);
    var taken :=
      if frame.id == FW_DATA_RX then t.taken + frame.data[..boot.received - t.boot.received] else t.taken;
    Tracked(boot, taken, t.lost || LosesPiece(t.boot, frame, outcomes))
  }

  lemma FollowKeepsSound(bounds: seq<nat>, t: Tracked, frame: Frame, outcomes: seq<bool>, version: Word)
    requires Increasing(bounds) && Sound(t) && !IsStart(frame) && !Overruns(t.boot, frame)
    ensures
      var u, r := Follow(bounds, t, frame, outcomes, version), Update(bounds, t.boot, frame, outcomes, version);
      && Sound(u) && u.boot.total == t.boot.total
      && (r.jumped <==> IsConfirm(frame) && t.boot.received == t.boot.total)
      && (r.jumped || (exists v :: Reply(UpdateSuccess, v) in r.replies) ==>
            u.boot.received == u.boot.total && u.boot.buffer == [])
  {
    hide DataWord;
    hide TakeBytes;
    hide Conclude;
    UpdateDispatches(bounds, t.boot, frame, outcomes, version);
    if frame.id == FW_DATA_RX {
      DataKeepsSound(t, frame.data, outcomes, 0);
    } else if IsConfirm(frame) {
      ConcludeKeepsSound(t, outcomes);
    } else {
      OtherFrames(bounds, t.boot, frame, outcomes, version);
    }
  }

  lemma ConcludeKeepsSound(t: Tracked, outcomes: seq<bool>)
    requires Sound(t)
    ensures
      var r := Conclude(t.boot, outcomes);
      && Sound(Tracked(r.boot, t.taken, t.lost || (t.boot.buffer != [] && !Ok(outcomes, 0))))
      && r.boot.total == t.boot.total && r.boot.buffer == []
      && (r.jumped <==> t.boot.received == t.boot.total)
      && (r.jumped ==> r.boot.received == r.boot.total)
      && forall v :: Reply(UpdateSuccess, v) !in r.replies
  {
    hide Sound;
    if t.boot.buffer != [] {
      if Ok(outcomes, 0) {
        FlushKeepsSound(t);
      } else {
        LostPieceLeavesHole(t);
      }
    }
  }

  /** A list of frames; None once the buffer has been overrun. */
  ghost function Track(bounds: seq<nat>, t: Tracked, frames: seq<Frame>, outcomes: seq<seq<bool>>, version: Word)
    : Option<Tracked>
    requires Increasing(bounds) && |outcomes| == |frames|
    decreases |frames|
  {
    if frames == [] then Some(t)
    else
      var last := |frames| - 1;
      match Track(bounds, t, frames[..last], outcomes[..last], version)
      case None => None
      case Some(u) =>
        if Overruns(u.boot, frames[last]) then None
        else Some(Follow(bounds, u, frames[last], outcomes[last], version))
  }

  lemma {:induction false} TrackKeepsSound(bounds: seq<nat>, t: Tracked, frames: seq<Frame>, outcomes: seq<seq<bool>>,
                                           version: Word)
    requires Increasing(bounds) && |outcomes| == |frames| && Sound(t) && forall f :: f in frames ==> !IsStart(f)
    ensures
      var u := Track(bounds, t, frames, outcomes, version);
      && (u.Some? ==> Sound(u.value) && u.value.boot.total == t.boot.total)
      && Run(bounds, t.boot, frames, outcomes, version) == if u.Some? then Some(u.value.boot) else None
    decreases |frames|
  {
    hide IsStart;
    hide Update;
    if frames != [] {
      var last := |frames| - 1;
      assert frames[last] in frames && forall f :: f in frames[..last] ==> f in frames;
      TrackKeepsSound(bounds, t, frames[..last], outcomes[..last], version);
      var u := Track(bounds, t, frames[..last], outcomes[..last], version);
      if u.Some? && !Overruns(u.value.boot, frames[last]) {
        FollowKeepsSound(bounds, u.value, frames[last], outcomes[last], version);
      }
      hide Sound;
    }
  }

  /** A START whose erasures succeed, for an image that fits. */
  function Begin(bounds: seq<nat>, d: Boot, start: Frame, erasures: seq<bool>): Tracked
    requires Increasing(bounds)
  {
    Tracked(Start(bounds, d, start, erasures).boot, [], false)
  }

  lemma BeginIsSound(bounds: seq<nat>, d: Boot, start: Frame, erasures: seq<bool>)
    requires Tiling(bounds) && AllOk(erasures) && IsStart(start) && DataWord(start, 1) <= APP_SIZE
    ensures Sound(Begin(bounds, d, start, erasures))
    ensures Begin(bounds, d, start, erasures).boot.total == DataWord(start, 1)
  {
    hide Start;
    hide DataWord;
    hide Ceiling;
    StartEstablishesInv(bounds, d, start, erasures);
  }

  /** At the end of a transfer the flash shows what was taken in exactly when nothing was lost. */
  lemma WholeExact(t: Tracked)
    requires Sound(t) && t.boot.received == t.boot.total && t.boot.buffer == []
    ensures |t.taken| == t.boot.total && (Holds(t.boot.flash, t.taken) <==> !t.lost)
  {
    assert t.taken[..Written(t.boot)] == t.taken;
    if t.lost {
      var a :| APP_START <= a < APP_START + Written(t.boot) && a !in t.boot.flash.cells;
      assert !HoldsAt(t.boot.flash, APP_START + (a - APP_START), t.taken[a - APP_START]);
    }
  }

  lemma JumpExact(bounds: seq<nat>, d: Boot, frame: Frame, outcomes: seq<bool>, version: Word)
    requires Increasing(bounds) && !IsStart(frame) && !Overruns(d, frame)
    ensures Update(bounds, d, frame, outcomes, version).jumped <==> IsConfirm(frame) && d.received == d.total
  {
    hide DataWord;
    hide TakeBytes;
    hide Program;
  }

  /** One transfer, begun in any state by a START that is accepted, its writes failing as they may, as long as
      the buffer has not been overrun: success is reported, or the application started, with the image taken in
      standing in the flash if and only if no CONFIRM since the START has found bytes in the buffer and failed to
      program them. The application is started by every CONFIRM that finds all bytes taken in. */
  lemma ImageExact(bounds: seq<nat>, d: Boot, start: Frame, erasures: seq<bool>, frames: seq<Frame>,
                   outcomes: seq<seq<bool>>, frame: Frame, last: seq<bool>, version: Word)
    requires Tiling(bounds) && AllOk(erasures) && IsStart(start) && DataWord(start, 1) <= APP_SIZE
    requires |outcomes| == |frames| && !IsStart(frame) && forall f :: f in frames ==> !IsStart(f)
    requires
      var t := Track(bounds, Begin(bounds, d, start, erasures), frames, outcomes, version);
      t.Some? && !Overruns(t.value.boot, frame)
    ensures
      var t := Track(bounds, Begin(bounds, d, start, erasures), frames, outcomes, version).value;
      var u, r := Follow(bounds, t, frame, last, version), Update(bounds, t.boot, frame, last, version);
      r.jumped || (exists v :: Reply(UpdateSuccess, v) in r.replies) ==>
        && |u.taken| == DataWord(start, 1) && r.boot == u.boot
        && (Holds(r.boot.flash, u.taken) <==> !u.lost)
    ensures
      var t := Track(bounds, Begin(bounds, d, start, erasures), frames, outcomes, version).value;
      var r := Update(bounds, t.boot, frame, last, version);
      r.jumped <==> IsConfirm(frame) && t.boot.received == DataWord(start, 1)
  {
    hide IsStart;
    hide Update;
    hide Sound;
    hide Holds;
    hide Begin;
    hide DataWord;
    BeginIsSound(bounds, d, start, erasures);
    TrackKeepsSound(bounds, Begin(bounds, d, start, erasures), frames, outcomes, version);
    var t := Track(bounds, Begin(bounds, d, start, erasures), frames, outcomes, version).value;
    FollowKeepsSound(bounds, t, frame, last, version);
    JumpExact(bounds, t.boot, frame, last, version);
    var r := Update(bounds, t.boot, frame, last, version);
    if r.jumped || (exists v :: Reply(UpdateSuccess, v) in r.replies) {
      WholeExact(Follow(bounds, t, frame, last, version));
    }
  }

  /** What is taken in is what is offered, up to the announced size, as long as no data write fails. */
  lemma {:induction false} TakenIsOffered(bounds: seq<nat>, t: Tracked, frames: seq<Frame>, outcomes: seq<seq<bool>>,
                                          offered: Bytes, version: Word)
    requires Increasing(bounds) && |outcomes| == |frames| && Sound(t) && forall f :: f in frames ==> !IsStart(f)
    requires forall i :: 0 <= i < |frames| && frames[i].id == FW_DATA_RX ==> AllOk(outcomes[i])
    requires t.taken == offered[..Min(|offered|, t.boot.total)]
    ensures
      var u, all := Track(bounds, t, frames, outcomes, version), AllOffered(offered, frames);
      u.Some? ==> u.value.taken == all[..Min(|all|, t.boot.total)]
    decreases |frames|
  {
    hide IsStart;
    hide Follow;
    hide Sound;
    hide Update;
    if frames != [] {
      var last := |frames| - 1;
      assert frames[last] in frames && forall f :: f in frames[..last] ==> f in frames;
      TakenIsOffered(bounds, t, frames[..last], outcomes[..last], offered, version);
      TrackKeepsSound(bounds, t, frames[..last], outcomes[..last], version);
      var u := Track(bounds, t, frames[..last], outcomes[..last], version);
      if u.Some? && !Overruns(u.value.boot, frames[last]) {
        SoundCounts(u.value);
        FollowTakes(bounds, u.value, frames[last], outcomes[last], version);
        if frames[last].id == FW_DATA_RX {
          CutSum(AllOffered(offered, frames[..last]), frames[last].data, t.boot.total, u.value.boot.received);
        }
      }
    }
  }

  lemma SoundCounts(t: Tracked)
    requires Sound(t)
    ensures t.boot.received == |t.taken| <= t.boot.total
  {
  }

  lemma FollowTakes(bounds: seq<nat>, t: Tracked, frame: Frame, outcomes: seq<bool>, version: Word)
    requires Increasing(bounds) && !Overruns(t.boot, frame) && t.boot.received <= t.boot.total
    requires !IsStart(frame) && (frame.id == FW_DATA_RX ==> AllOk(outcomes))
    ensures
      Follow(bounds, t, frame, outcomes, version).taken ==
      if frame.id == FW_DATA_RX
      then t.taken + frame.data[..Min(t.boot.received + |frame.data|, t.boot.total) - t.boot.received]
      else t.taken
  {
    hide Update;
    hide TakeBytes;
    UpdateDispatches(bounds, t.boot, frame, outcomes, version);
    TakesPrefix(t.boot, frame.data, outcomes, 0);
  }

  lemma CutSum(so: Bytes, data: Bytes, total: nat, received: nat)
    requires received == |so[..Min(|so|, total)]|
    ensures
      var n := Min(received + |data|, total) - received;
      0 <= n <= |data| && so[..Min(|so|, total)] + data[..n] == (so + data)[..Min(|so + data|, total)]
  {
  }

  lemma TrackOneMore(bounds: seq<nat>, t: Tracked, frames: seq<Frame>, outcomes: seq<seq<bool>>, frame: Frame,
                     last: seq<bool>, version: Word)
    requires Increasing(bounds) && |outcomes| == |frames|
    requires
      var u := Track(bounds, t, frames, outcomes, version);
      u.Some? && !Overruns(u.value.boot, frame)
    ensures
      Track(bounds, t, frames + [frame], outcomes + [last], version) ==
      Some(Follow(bounds, Track(bounds, t, frames, outcomes, version).value, frame, last, version))
  {
    assert (frames + [frame])[..|frames|] == frames && (outcomes + [last])[..|frames|] == outcomes;
  }

  lemma TakeOne(d: Boot, b: Byte)
    requires |d.buffer| < BUFFER_SIZE && d.received < d.total
    ensures
      var e := TakeByte(d, b);
      TakeBytes(d, [b], [], 0) ==
      if MustFlush(e) then Outcome(Flush(e, true), Progress(Flush(e, true)), false) else Outcome(e, [], false)
  {
    hide Flush;
    hide Progress;
    var data, e := [b], TakeByte(d, b);
    assert data[0] == b && data[1..] == [];
    TakeNothing(e, 0);
    TakeNothing(Flush(e, true), 1);
    assert Progress(Flush(e, true)) + [] == Progress(Flush(e, true));
  }

  lemma TakeNothing(d: Boot, k: nat)
    ensures TakeBytes(d, [], [], k) == Outcome(d, [], false)
  {
  }

  /** A data frame of one byte. */
  lemma FollowByte(bounds: seq<nat>, t: Tracked, b: Byte, version: Word)
    requires Increasing(bounds) && |t.boot.buffer| + 1 < BUFFER_SIZE && t.boot.received < t.boot.total
    ensures !Overruns(t.boot, Frame(FW_DATA_RX, [b]))
    ensures
      var e, more := TakeByte(t.boot, b), t.taken + [b];
      Follow(bounds, t, Frame(FW_DATA_RX, [b]), [], version) ==
      Tracked(if e.received == e.total then Flush(e, true) else e, more, t.lost)
    ensures t.boot.received + 1 == t.boot.total ==>
      Update(bounds, t.boot, Frame(FW_DATA_RX, [b]), [], version).replies == [Reply(UpdateSuccess, t.boot.total)]
  {
    hide TakeBytes;
    var data := [b];
    assert data[..1] == data;
    TakeOne(t.boot, b);
    UpdateDispatches(bounds, t.boot, Frame(FW_DATA_RX, data), [], version);
    FlushCounts(TakeByte(t.boot, b));
    hide Flush;
    hide Update;
  }

  /** An image of two bytes. A CONFIRM after the first fails to program it; the second is programmed and answered
      with success, and the next CONFIRM starts the application, with nothing left in the buffer and the first
      byte missing from the flash. */
  lemma LostPieceReported(bounds: seq<nat>, d: Boot, start: Frame, a: Byte, b: Byte, version: Word)
    requires Tiling(bounds) && IsStart(start) && DataWord(start, 1) == 2
    ensures
      var confirm := Command(CMD_CONFIRM, 0);
      var frames := [Frame(FW_DATA_RX, [a]), confirm, Frame(FW_DATA_RX, [b])];
      var end := Run(bounds, Start(bounds, d, start, []).boot, frames, [[], [false], []], version);
      var mid := Run(bounds, Start(bounds, d, start, []).boot, frames[..2], [[], [false]], version);
      && mid.Some? && !Overruns(mid.value, frames[2])
      && Update(bounds, mid.value, frames[2], [], version).replies == [Reply(UpdateSuccess, 2)]
      && end.Some? && end.value.buffer == []
      && var r := Update(bounds, end.value, confirm, [], version);
      r.jumped && r.boot == end.value && !Holds(r.boot.flash, [a, b])
  {
    hide DataWord;
    hide LittleEndian;
    hide Sound;
    hide Holds;
    hide Run;
    hide Track;
    var confirm := Command(CMD_CONFIRM, 0);
    CommandWords(CMD_CONFIRM, 0);
    var first, second := Frame(FW_DATA_RX, [a]), Frame(FW_DATA_RX, [b]);
    var none: seq<bool> := [];
    assert AllOk(none);
    StartEstablishesInv(bounds, d, start, none);
    BeginIsSound(bounds, d, start, none);
    hide Start;
    hide Flush;
    var t0 := Begin(bounds, d, start, none);
    TrackNothing(bounds, t0, version);
    FollowByte(bounds, t0, a, version);
    var t1 := Follow(bounds, t0, first, none, version);
    FollowLost(bounds, t1, confirm, version);
    var t2 := Follow(bounds, t1, confirm, [false], version);
    FlushAnyCounts(t1.boot);
    FollowByte(bounds, t2, b, version);
    var t3 := Follow(bounds, t2, second, none, version);
    FlushCounts(TakeByte(t2.boot, b));
    assert t3.lost && t3.taken == [a, b];
    hide Follow;
    TrackOneMore(bounds, t0, [], [], first, none, version);
    assert [] + [first] == [first] && [] + [none] == [none];
    TrackOneMore(bounds, t0, [first], [none], confirm, [false], version);
    assert [first] + [confirm] == [first, confirm] && [none] + [[false]] == [none, [false]];
    TrackOneMore(bounds, t0, [first, confirm], [none, [false]], second, none, version);
    var frames, outcomes := [first, confirm, second], [none, [false], none];
    assert [first, confirm] + [second] == frames && [none, [false]] + [none] == outcomes;
    TrackKeepsSound(bounds, t0, frames, outcomes, version);
    TrackKeepsSound(bounds, t0, [first, confirm], [none, [false]], version);
    assert frames[..2] == [first, confirm];
    WholeExact(t3);
    JumpsAtEnd(bounds, t3.boot, confirm, version);
  }

  lemma JumpsAtEnd(bounds: seq<nat>, d: Boot, frame: Frame, version: Word)
    requires Increasing(bounds) && IsConfirm(frame) && d.buffer == [] && d.received == d.total
    ensures
      var r := Update(bounds, d, frame, [], version);
      r.jumped && r.boot == d
  {
    hide DataWord;
  }

  lemma TrackNothing(bounds: seq<nat>, t: Tracked, version: Word)
    requires Increasing(bounds)
    ensures Track(bounds, t, [], [], version) == Some(t)
  {
  }

  lemma FollowLost(bounds: seq<nat>, t: Tracked, frame: Frame, version: Word)
    requires Increasing(bounds) && IsConfirm(frame) && t.boot.buffer != [] && t.boot.received < t.boot.total
    ensures !Overruns(t.boot, frame)
    ensures Follow(bounds, t, frame, [false], version) == Tracked(Flush(t.boot, false), t.taken, true)
  {
    hide DataWord;
    hide Flush;
    FlushAnyCounts(t.boot);
  }

  lemma FlushAnyCounts(d: Boot)
    ensures Flush(d, false) == Boot(d.flash, [], Flush(d, false).addr, d.total, d.received)
  {
  }

  // ---------------------------------------------------------------------------
  // The code itself
  // ---------------------------------------------------------------------------

  /** `fw_update` and its static variables. */
  class Receiver {
    const bounds: seq<nat>
    const version: Word
    const flashBuffer: array<Byte>
    var flash: Flash
    var flashBufferIndex: nat
    var currentFlashAddr: Word
    var totalFwSize: Word
    var receivedFwSize: Word
    var replies: seq<Reply>
    var jumped: bool

    ghost predicate Valid()
      reads this
    {
      Increasing(bounds) && flashBuffer.Length == BUFFER_SIZE && flashBufferIndex <= BUFFER_SIZE
    }

    ghost function State(): Boot
      reads this, flashBuffer
      requires Valid()
    {
      Boot(flash, flashBuffer[..flashBufferIndex], currentFlashAddr, totalFwSize, receivedFwSize)
    }

    constructor (bounds: seq<nat>, version: Word, cells: map<nat, Byte>)
      requires Increasing(bounds)
      ensures Valid() && fresh(flashBuffer) && this.bounds == bounds && this.version == version
      ensures State() == PowerOn(cells) && replies == [] && !jumped
    {
      this.bounds, this.version := bounds, version;
      flashBuffer, flashBufferIndex := new Byte[BUFFER_SIZE](_ => 0), 0;
      flash, currentFlashAddr, totalFwSize, receivedFwSize := Flash(cells, false), APP_START, 0, 0;
      replies, jumped := [], false;
    }

    method SendResponse(code: Code, value: Word)
      modifies this`replies
      ensures replies == old(replies) + [Reply(code, value)]
    {
      replies := replies + [Reply(code, value)];
    }

    /** Program the part of the buffer in use; the driver's verdict comes back. */
    method FlashWrite(willing: bool) returns (ok: bool)
      requires Valid()
      modifies this`flash
      ensures ok == willing
      ensures
        flash == if ok then Program(old(flash), currentFlashAddr, flashBuffer[..flashBufferIndex]) else old(flash)
    {
      ok := willing;
      if ok {
        flash := Program(flash, currentFlashAddr, flashBuffer[..flashBufferIndex]);
      }
    }

    method StartUpdate(frame: Frame, outcomes: seq<bool>)
      requires Valid()
      modifies this
      ensures Valid()
      ensures
        var r := Start(bounds, old(State()), frame, outcomes);
        State() == r.boot && replies == old(replies) + r.replies && jumped == old(jumped)
    {
      hide DataWord;
      hide Erase;
      if |frame.data| != 8 {
        SendResponse(FlashError, 0);
        return;
      }
      totalFwSize, receivedFwSize, currentFlashAddr, flashBufferIndex := DataWord(frame, 1), 0, APP_START, 0;
      var eraseSize: nat := totalFwSize;
      if eraseSize > APP_SIZE {
        eraseSize := APP_SIZE;
      }
      var eraseAddr: nat, k := APP_START, 0;
      ghost var whole := ErasePages(bounds, flash, eraseAddr, eraseSize, outcomes, 0);
      while eraseSize > 0
        invariant Valid() && flashBufferIndex == 0 && currentFlashAddr == APP_START && receivedFwSize == 0
        invariant totalFwSize == DataWord(frame, 1) && replies == old(replies) && jumped == old(jumped)
        invariant ErasePages(bounds, flash, eraseAddr, eraseSize, outcomes, k) == whole
        decreases eraseSize
      {
        var page := PageOf(bounds, eraseAddr);
        if page.None? || !Ok(outcomes, k) {
          SendResponse(FlashError, 0);
          return;
        }
        flash := Erase(flash, page.value);
        k := k + 1;
        if page.value.size <= eraseSize {
          eraseSize := eraseSize - page.value.size;
        } else {
          eraseSize := 0;
        }
        eraseAddr := eraseAddr + page.value.size;
      }
      SendResponse(Offset, 0);
    }

    method ConfirmUpdate(outcomes: seq<bool>)
      requires Valid()
      modifies this
      ensures Valid()
      ensures
        var r := Conclude(old(State()), outcomes);
        State() == r.boot && replies == old(replies) + r.replies && jumped == (old(jumped) || r.jumped)
    {
      hide Program;
      if flashBufferIndex > 0 {
        var _ := FlashWrite(Ok(outcomes, 0));
        currentFlashAddr := Plus(currentFlashAddr, flashBufferIndex);
        flashBufferIndex := 0;
      }
      if receivedFwSize != totalFwSize {
        SendResponse(TransferError, receivedFwSize);
        return;
      }
      SendResponse(Confirm, CONFIRMED);
      jumped := true;
    }

    /** What remains to be done for `rest` completes the outcome `whole` of the frame. */
    ghost predicate OnTrack(whole: Outcome, before: seq<Reply>, rest: Bytes, outcomes: seq<bool>, k: nat)
      reads this, flashBuffer
      requires Valid()
    {
      var r := TakeBytes(State(), rest, outcomes, k);
      whole.boot == r.boot && before + whole.replies == replies + r.replies
    }

    /** Put one byte into the buffer. */
    method StoreByte(b: Byte)
      requires Valid() && flashBufferIndex < BUFFER_SIZE && receivedFwSize < totalFwSize
      modifies this`flashBufferIndex, this`receivedFwSize, flashBuffer
      ensures Valid() && State() == TakeByte(old(State()), b)
    {
      flashBuffer[flashBufferIndex] := b;
      flashBufferIndex := flashBufferIndex + 1;
      receivedFwSize := receivedFwSize + 1;
    }

    /** The buffer, full or holding the image's end, goes to the flash. */
    method FlushBuffer(willing: bool) returns (ok: bool)
      requires Valid() && MustFlush(State())
      modifies this
      ensures Valid() && jumped == old(jumped) && ok == willing && (ok ==> flashBufferIndex == 0)
      ensures if ok then State() == Flush(old(State()), true) && replies == old(replies) + Progress(State())
              else State() == old(State()) && replies == old(replies) + [Reply(FlashError, receivedFwSize)]
    {
      hide Program;
      ok := FlashWrite(willing);
      if !ok {
        SendResponse(FlashError, receivedFwSize);
        return;
      }
      currentFlashAddr := Plus(currentFlashAddr, flashBufferIndex);
      flashBufferIndex := 0;
      if receivedFwSize >= totalFwSize {
        SendResponse(UpdateSuccess, receivedFwSize);
      } else if receivedFwSize % 4096 == 0 {
      } else if receivedFwSize % 64 == 0 {
        SendResponse(Offset, receivedFwSize);
      }
    }

    /** A data frame that finds the buffer full, as a failed write leaves it, makes the code write past the
        buffer; the model stops before that write and reports it. */
    method TakeData(data: Bytes, outcomes: seq<bool>) returns (overrun: bool)
      requires Valid()
      modifies this, flashBuffer
      ensures Valid() && jumped == old(jumped)
      ensures overrun <==> old(Overruns(State(), Frame(FW_DATA_RX, data)))
      ensures overrun ==> State() == old(State()) && replies == old(replies)
      ensures !overrun ==>
        var r := TakeBytes(old(State()), data, outcomes, 0);
        State() == r.boot && replies == old(replies) + r.replies
    {
      hide Flush;
      hide Progress;
      overrun := false;
      if receivedFwSize >= totalFwSize {
        return;
      }
      if |data| > 0 && flashBufferIndex >= BUFFER_SIZE {
        return true;
      }
      var i, k := 0, 0;
      ghost var whole, before := TakeBytes(State(), data, outcomes, 0), replies;
      while i < |data| && receivedFwSize < totalFwSize
        invariant Valid() && i <= |data| && jumped == old(jumped)
        invariant i < |data| && receivedFwSize < totalFwSize ==> flashBufferIndex < BUFFER_SIZE
        invariant OnTrack(whole, before, data[i..], outcomes, k)
        decreases |data| - i
      {
        assert data[i..][0] == data[i] && data[i..][1..] == data[i + 1..];
        StoreByte(data[i]);
        i := i + 1;
        if flashBufferIndex >= BUFFER_SIZE || receivedFwSize >= totalFwSize {
          var ok := FlushBuffer(Ok(outcomes, k));
          if !ok {
            return;
          }
          k := k + 1;
        }
      }
    }

    method FwUpdate(frame: Frame, outcomes: seq<bool>) returns (overrun: bool)
      requires Valid()
      modifies this, flashBuffer
      ensures Valid() && (overrun <==> old(Overruns(State(), frame)))
      ensures overrun ==> State() == old(State()) && replies == old(replies) && jumped == old(jumped)
      ensures !overrun ==>
        var r := Update(bounds, old(State()), frame, outcomes, version);
        State() == r.boot && replies == old(replies) + r.replies && jumped == (old(jumped) || r.jumped)
    {
      hide DataWord;
      hide Start;
      hide Conclude;
      hide TakeBytes;
      overrun := false;
      if frame.id == PLATFORM_RX {
        var cmd := DataWord(frame, 0);
        if cmd == CMD_START {
          StartUpdate(frame, outcomes);
        } else if cmd == CMD_CONFIRM {
          ConfirmUpdate(outcomes);
        } else if cmd == CMD_VERSION {
          SendResponse(Version, version);
        }
      } else if frame.id == FW_DATA_RX {
        overrun := TakeData(frame.data, outcomes);
      }
    }
  }
}
