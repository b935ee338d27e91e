/** The host's upgrade tool talking to the bootloader instead of an application, in every interleaving over
    the bootloader's own receive queue: the bootloader keeps silent after every 4096 bytes, where the tool
    waits for an answer. */
module BootloaderHost {
  import opened Words
  import opened CanDevice
  import opened CanUpgrade
  import opened Bootloader

  const SILENT: nat := 4096

  /** The bootloader's answer to having received `n` bytes, where the host expects `ProgressReply`. */
  function BootReply(n: nat, total: Word): seq<Reply>
    requires n <= total
  {
    if n < total && n % SILENT == 0 then [] else ProgressReply(n, total)
  }

  /** The answer to a data frame that stays within one buffer, by the number of bytes then received. */
  lemma {:induction false} DataReplies(d: Boot, data: Bytes, k: nat)
    requires data != [] && d.received + |data| <= d.total
    requires |d.buffer| == d.received % BUFFER_SIZE && |d.buffer| + |data| <= BUFFER_SIZE
    ensures
      var r, m := TakeBytes(d, data, [], k), d.received + |data|;
      && r.boot.received == m && r.boot.total == d.total
      && |r.boot.buffer| == (if m == d.total then 0 else m % BUFFER_SIZE)
      && r.replies == BootReply(m, d.total)
    decreases |data|
  {
    hide Program;
    hide Plus;
    var e := TakeByte(d, data[0]);
    if |data| > 1 {
      assert !MustFlush(e);
      DataReplies(e, data[1..], k);
    } else if MustFlush(e) {
      assert TakeBytes(Flush(e, true), data[1..], [], k + 1) == Outcome(Flush(e, true), [], false);
      assert e.received < e.total ==> e.received % 64 == 0;
    }
  }

  // ---------------------------------------------------------------------------
  // The two and the queue between them
  // ---------------------------------------------------------------------------

  /** `jumped` once the bootloader has handed over to the application; `broken` once a frame has found the
      queue full or made the bootloader write past its buffer. */
  datatype Link = Link(host: Host, boot: Boot, queue: seq<Frame>, inbox: seq<Reply>, jumped: bool, broken: bool)

  function Post(s: Link, frame: Frame): Link {
    if |s.queue| < QUEUE_DEPTH then s.(queue := s.queue + [frame]) else s.(broken := true)
  }

  predicate Moves(s: Link, t: Turn) {
    match t
    case HostTurn => !Over(s.host) && (Awaiting(s.host) ==> s.inbox != [])
    case DeviceTurn => s.queue != [] && !s.jumped
  }

  function TakeFrame(bounds: seq<nat>, s: Link): Link
    requires Increasing(bounds) && s.queue != []
  {
    if Overruns(s.boot, s.queue[0]) then s.(queue := s.queue[1..], broken := true)
    else
      var r := Update(bounds, s.boot, s.queue[0], [], 0);
      s.(boot := r.boot, queue := s.queue[1..], inbox := s.inbox + r.replies, jumped := r.jumped)
  }

  /** One side moves; a side that has nothing to do leaves the link alone. */
  function LinkStep(bounds: seq<nat>, job: Job, s: Link, t: Turn): Link
    requires Increasing(bounds) && |job.file| < WORDS
  {
    if !Moves(s, t) then s
    else if t == DeviceTurn then TakeFrame(bounds, s)
    else if Awaiting(s.host) then s.(host := HearReply(s.host, s.inbox[0]), inbox := s.inbox[1..])
    else
      var after := s.(host := AfterSend(job, s.host));
      match NextFrame(job, s.host)
      case Some(frame) => Post(after, frame)
      case None => after
  }

  // ---------------------------------------------------------------------------
  // The invariant
  // ---------------------------------------------------------------------------

  /** The bootloader has received exactly the first `n` bytes of the file. */
  ghost predicate InStep(job: Job, d: Boot, n: nat, clean: bool) {
    && n <= |job.file| <= APP_SIZE && (n % 8 == 0 || n == |job.file|)
    && Bootloader.Inv(d, job.file[..n], clean) && d.total == |job.file| && d.received == n
    && |d.buffer| == (if n == |job.file| then 0 else n % BUFFER_SIZE)
  }

  /** The frames up to `sent` are on their way. */
  ghost predicate Underway(job: Job, s: Link, sent: nat, clean: bool) {
    var got := s.boot.received;
    && InStep(job, s.boot, got, clean) && !s.jumped
    && got <= sent <= |job.file| && (sent % 8 == 0 || sent == |job.file|)
    && s.queue == DataFrames(job.file, got, sent)
  }

  /** The flash holds the file, the application has been started, and no frame is left over. */
  ghost predicate Done(job: Job, s: Link) {
    Holds(s.boot.flash, job.file) && s.jumped && s.queue == []
  }

  ghost predicate LinkHost(job: Job, s: Link, d: Boot)
    requires job.Valid()
  {
    var total, clean := |job.file|, !d.flash.misused;
    match s.host
    case Start => s.boot == d && !s.jumped && s.queue == [] && s.inbox == []
    case AwaitStart =>
      || (s.boot == d && !s.jumped && s.inbox == [] && s.queue == [Command(CMD_START, total)])
      || (Underway(job, s, 0, clean) && s.inbox == [Reply(Offset, 0)])
    case Reading(n) =>
      && Underway(job, s, n, clean) && s.inbox == [] && (n < SILENT || n == total <= SILENT)
      && s.boot.received / 64 == n / 64 && (n == total ==> s.boot.received == n)
    case AwaitProgress(n) =>
      && Underway(job, s, n, clean) && SyncPoint(job.file, n) && 0 < n <= SILENT
      && (s.boot.received < n ==> s.inbox == [] && s.boot.received / 64 == (n - 1) / 64)
      && (s.boot.received == n ==> s.inbox == BootReply(n, total))
    case AskConfirm => Underway(job, s, total, clean) && s.boot.received == total <= SILENT && s.inbox == []
    case AwaitConfirm =>
      && total <= SILENT
      && (|| (InStep(job, s.boot, total, clean) && !s.jumped && s.inbox == [] && s.queue == [ConfirmFrame(job)])
          || (Done(job, s) && s.inbox == [Reply(Confirm, CONFIRMED)]))
    case Finished(r) => total <= SILENT && r == Reply(Confirm, CONFIRMED) && Done(job, s) && s.inbox == []
    case Raised => false
  }

  ghost predicate LinkInv(job: Job, s: Link, d: Boot) {
    job.Valid() && |job.file| <= APP_SIZE && !s.broken && LinkHost(job, s, d)
  }

  lemma AllOkEmpty()
    ensures AllOk([])
  {
  }

  lemma ChunkFits(n: nat, m: nat, total: nat)
    requires n < total && n % 8 == 0 && m == if n + 8 < total then n + 8 else total
    ensures n < m && n % BUFFER_SIZE + (m - n) <= BUFFER_SIZE && (m % 8 == 0 || m == total)
  {
  }

  lemma TakesChunk(job: Job, bounds: seq<nat>, d: Boot, n: nat, clean: bool)
    requires job.Valid() && Tiling(bounds) && InStep(job, d, n, clean) && n < |job.file|
    ensures
      var m, frame := ChunkEnd(job.file, n), DataFrame(job.file, n);
      && !Overruns(d, frame)
      && var r := Update(bounds, d, frame, [], 0);
      && InStep(job, r.boot, m, clean) && !r.jumped && r.replies == BootReply(m, |job.file|)
  {
    hide Bootloader.Inv;
    hide TakeBytes;
    hide Update;
    hide ProgressReply;
    var m, frame := ChunkEnd(job.file, n), DataFrame(job.file, n);
    ChunkFits(n, m, |job.file|);
    hide ChunkEnd;
    assert job.file[..n] + frame.data == job.file[..m];
    AllOkEmpty();
    TakeBytesKeepsInv(d, job.file[..n], clean, frame.data, [], 0);
    DataReplies(d, frame.data, 0);
    UpdateDispatches(bounds, d, frame, [], 0);
  }

  lemma TakesStart(job: Job, bounds: seq<nat>, d: Boot)
    requires job.Valid() && |job.file| <= APP_SIZE && Tiling(bounds)
    ensures
      var frame := Command(CMD_START, |job.file|);
      && !Overruns(d, frame)
      && var r := Update(bounds, d, frame, [], 0);
      && InStep(job, r.boot, 0, !d.flash.misused) && !r.jumped && r.replies == [Reply(Offset, 0)]
  {
    hide LittleEndian;
    hide DataWord;
    hide ErasePages;
    hide Loaded;
    var frame := Command(CMD_START, |job.file|);
    CommandWords(CMD_START, |job.file|);
    AllOkEmpty();
    StartEstablishesInv(bounds, d, frame, []);
    assert job.file[..0] == [];
  }

  lemma TakesConfirm(job: Job, bounds: seq<nat>, d: Boot, clean: bool)
    requires job.Valid() && Tiling(bounds) && InStep(job, d, |job.file|, clean)
    ensures
      && !Overruns(d, ConfirmFrame(job))
      && var r := Update(bounds, d, ConfirmFrame(job), [], 0);
      && Holds(r.boot.flash, job.file) && r.jumped && r.replies == [Reply(Confirm, CONFIRMED)]
  {
    hide LittleEndian;
    hide DataWord;
    hide Loaded;
    hide Holds;
    hide Update;
    var frame := ConfirmFrame(job);
    CommandWords(CMD_CONFIRM, if job.test then 0 else 1);
    AllOkEmpty();
    assert job.file[..|job.file|] == job.file;
    SuccessMeansWhole(bounds, d, job.file, clean, frame, [], 0);
    UpdateDispatches(bounds, d, frame, [], 0);
    ConfirmKeepsInv(d, job.file, clean, []);
  }

  // ---------------------------------------------------------------------------
  // Every move keeps it
  // ---------------------------------------------------------------------------

  /** At most eight frames are ever unprocessed and at most one answer unread. */
  lemma LinkFlow(job: Job, s: Link, d: Boot)
    requires LinkInv(job, s, d)
    ensures |s.queue| <= QUEUE_DEPTH && |s.inbox| <= 1
    ensures !Awaiting(s.host) ==> |s.queue| < QUEUE_DEPTH
  {
    hide Bootloader.Inv;
    hide LittleEndian;
    hide DataFrame;
    hide Holds;
    if s.host.Reading? || s.host.AwaitProgress? || s.host.AskConfirm? {
      FramesInFlight(job.file, s.boot.received, if s.host.AskConfirm? then |job.file| else s.host.n);
      hide DataFrames;
    }
  }

  lemma Aligned(job: Job, s: Link, n: nat, clean: bool)
    requires job.Valid() && Underway(job, s, n, clean) && n < |job.file|
    ensures s.boot.received <= n && n % 8 == 0 && s.boot.received % 8 == 0
    ensures s.queue == DataFrames(job.file, s.boot.received, n)
  {
    hide Bootloader.Inv;
    hide DataFrames;
  }

  lemma StillUnderway(job: Job, s: Link, t: Link, n: nat, m: nat, clean: bool)
    requires job.Valid() && Underway(job, s, n, clean) && n <= m <= |job.file| && (m % 8 == 0 || m == |job.file|)
    requires t.boot == s.boot && t.jumped == s.jumped && t.queue == DataFrames(job.file, s.boot.received, m)
    ensures Underway(job, t, m, clean)
  {
    hide InStep;
    hide DataFrames;
  }

  lemma HostSendsChunkOn(bounds: seq<nat>, job: Job, s: Link, d: Boot)
    requires Increasing(bounds) && LinkInv(job, s, d) && s.host.Reading? && s.host.n < |job.file|
    ensures LinkInv(job, LinkStep(bounds, job, s, HostTurn), d)
  {
    var n, got, clean := s.host.n, s.boot.received, !d.flash.misused;
    LinkFlow(job, s, d);
    hide Underway;
    hide DataFrame;
    hide DataFrames;
    hide TakeFrame;
    hide Done;
    Aligned(job, s, n, clean);
    OneMoreFrame(job.file, got, n);
    NextRead(job.file, got, n);
    var t := LinkStep(bounds, job, s, HostTurn);
    StillUnderway(job, s, t, n, ChunkEnd(job.file, n), clean);
  }

  lemma HostHearsOn(bounds: seq<nat>, job: Job, s: Link, d: Boot)
    requires Increasing(bounds) && LinkInv(job, s, d) && Moves(s, HostTurn) && Awaiting(s.host)
    ensures LinkInv(job, LinkStep(bounds, job, s, HostTurn), d)
  {
    hide InStep;
    hide Holds;
    hide DataFrame;
    hide LittleEndian;
  }

  lemma HostMovesOn(bounds: seq<nat>, job: Job, s: Link, d: Boot)
    requires Increasing(bounds) && LinkInv(job, s, d) && Moves(s, HostTurn)
    ensures LinkInv(job, LinkStep(bounds, job, s, HostTurn), d)
  {
    if s.host.Reading? && s.host.n < |job.file| {
      HostSendsChunkOn(bounds, job, s, d);
    } else if Awaiting(s.host) {
      HostHearsOn(bounds, job, s, d);
    } else {
      hide InStep;
      hide Holds;
      hide DataFrame;
      hide LittleEndian;
      assert s.host.AskConfirm? ==> s.queue == [];
    }
  }

  /** Taking in the next frame brings the bootloader one chunk further and its answer, if it gives one. */
  lemma ChunkComes(bounds: seq<nat>, job: Job, s: Link, sent: nat, clean: bool)
    requires job.Valid() && Tiling(bounds) && Underway(job, s, sent, clean) && s.boot.received < sent
    ensures
      var next, r := ChunkEnd(job.file, s.boot.received), LinkStep(bounds, job, s, DeviceTurn);
      && next <= sent && Underway(job, r, sent, clean) && r.boot.received == next
      && r == s.(boot := r.boot, queue := r.queue, inbox := s.inbox + BootReply(next, |job.file|))
  {
    hide Bootloader.Inv;
    hide Update;
    hide BootReply;
    var got := s.boot.received;
    var next := ChunkEnd(job.file, got);
    FirstFrame(job.file, got, sent);
    hide DataFrames;
    hide DataFrame;
    hide ChunkEnd;
    TakesChunk(job, bounds, s.boot, got, clean);
    Received(job, Update(bounds, s.boot, s.queue[0], [], 0).boot, next, clean);
    hide InStep;
    hide Overruns;
  }

  lemma FirstFrame(file: Bytes, from: nat, to: nat)
    requires from < to <= |file| && from % 8 == 0 && (to % 8 == 0 || to == |file|)
    ensures ChunkEnd(file, from) <= to
    ensures DataFrames(file, from, to) == [DataFrame(file, from)] + DataFrames(file, ChunkEnd(file, from), to)
  {
  }

  lemma Received(job: Job, d: Boot, n: nat, clean: bool)
    requires InStep(job, d, n, clean)
    ensures d.received == n
  {
  }

  lemma BootTakesChunk(bounds: seq<nat>, job: Job, s: Link, d: Boot)
    requires Tiling(bounds) && LinkInv(job, s, d) && s.queue != [] && (s.host.Reading? || s.host.AwaitProgress?)
    ensures LinkInv(job, LinkStep(bounds, job, s, DeviceTurn), d)
  {
    var got, n := s.boot.received, s.host.n;
    assert got < n <= |job.file| && got % 8 == 0 && s.inbox == [];
    hide Underway;
    hide LinkStep;
    hide ProgressReply;
    ChunkComes(bounds, job, s, n, !d.flash.misused);
    var next := ChunkEnd(job.file, got);
    NextTaken(job.file, got, n, s.host.AwaitProgress?);
    hide ChunkEnd;
    assert s.inbox + BootReply(next, |job.file|) == BootReply(next, |job.file|);
  }

  lemma BootMoves(bounds: seq<nat>, job: Job, s: Link, d: Boot)
    requires Tiling(bounds) && LinkInv(job, s, d) && Moves(s, DeviceTurn)
    ensures LinkInv(job, LinkStep(bounds, job, s, DeviceTurn), d)
  {
    if s.host.Reading? || s.host.AwaitProgress? {
      BootTakesChunk(bounds, job, s, d);
    } else {
      hide Bootloader.Inv;
      hide Update;
      hide Holds;
      hide LittleEndian;
      if s.host.AwaitStart? {
        TakesStart(job, bounds, s.boot);
      } else {
        assert s.host.AwaitConfirm?;
        TakesConfirm(job, bounds, s.boot, !d.flash.misused);
      }
    }
  }

  lemma LinkStepKeepsInv(bounds: seq<nat>, job: Job, s: Link, t: Turn, d: Boot)
    requires Tiling(bounds) && LinkInv(job, s, d)
    ensures LinkInv(job, LinkStep(bounds, job, s, t), d)
  {
    hide LinkHost;
    hide TakeFrame;
    if Moves(s, t) {
      if t == DeviceTurn {
        BootMoves(bounds, job, s, d);
      } else {
        HostMovesOn(bounds, job, s, d);
      }
    }
  }

  // ---------------------------------------------------------------------------
  // Every fair interleaving
  // ---------------------------------------------------------------------------

  /** Where a schedule of turns leads. */
  ghost function LinkRun(bounds: seq<nat>, job: Job, s: Link, schedule: seq<Turn>): Link
    requires Increasing(bounds) && |job.file| < WORDS
    decreases |schedule|
  {
    if schedule == [] then s else LinkRun(bounds, job, LinkStep(bounds, job, s, schedule[0]), schedule[1..])
  }

  /** Several rounds one after the other. */
  ghost function LinkRounds(bounds: seq<nat>, job: Job, s: Link, rounds: seq<seq<Turn>>): Link
    requires Increasing(bounds) && |job.file| < WORDS
    decreases |rounds|
  {
    if rounds == [] then s else LinkRounds(bounds, job, LinkRun(bounds, job, s, rounds[0]), rounds[1..])
  }

  /** A bound on the moves left. */
  function Work(job: Job, s: Link): nat {
    3 * Sends(job, s.host) + 2 * |s.queue| + |s.inbox|
  }

  /** The tool waits for the answer that does not come. */
  ghost predicate Stalled(s: Link) {
    && s.host == AwaitProgress(SILENT) && s.boot.received == SILENT && !s.jumped
    && s.queue == [] && s.inbox == []
  }

  /** The tool has been told that the image is complete, the application started, and the flash holds it. */
  ghost predicate Upgraded(job: Job, s: Link) {
    s.host == Finished(Reply(Confirm, CONFIRMED)) && Done(job, s) && s.inbox == []
  }

  lemma LinkMoveDecreases(bounds: seq<nat>, job: Job, s: Link, t: Turn, d: Boot)
    requires Tiling(bounds) && LinkInv(job, s, d) && Moves(s, t)
    ensures Work(job, LinkStep(bounds, job, s, t)) < Work(job, s)
  {
    LinkStepKeepsInv(bounds, job, s, t, d);
    LinkFlow(job, LinkStep(bounds, job, s, t), d);
    hide LinkHost;
    hide Update;
    hide Sends;
    hide HearReply;
    hide AfterSend;
    hide NextFrame;
    if t == HostTurn {
      if Awaiting(s.host) {
        HearingUsesUp(job, s.host, s.inbox[0]);
      } else {
        SendingUsesUp(job, s.host);
      }
    }
  }

  /** Nobody can move only at the end, or where the tool has stalled, which is at 4096 bytes of a larger file. */
  lemma Quiet(job: Job, s: Link, d: Boot)
    requires LinkInv(job, s, d) && !Moves(s, HostTurn) && !Moves(s, DeviceTurn)
    ensures if |job.file| <= SILENT then Upgraded(job, s) else Stalled(s)
  {
    hide Bootloader.Inv;
    hide Holds;
    hide LittleEndian;
  }

  lemma {:induction false} RoundUsesUp(bounds: seq<nat>, job: Job, s: Link, round: seq<Turn>, d: Boot)
    requires Tiling(bounds) && LinkInv(job, s, d)
    ensures
      var t := LinkRun(bounds, job, s, round);
      && LinkInv(job, t, d)
      && (Work(job, t) < Work(job, s) || (t == s && forall u :: u in round ==> !Moves(s, u)))
    decreases |round|
  {
    hide LinkStep;
    hide LinkInv;
    hide Work;
    if round != [] {
      ValidJob(job, s, d);
      var next := LinkStep(bounds, job, s, round[0]);
      LinkStepKeepsInv(bounds, job, s, round[0], d);
      if Moves(s, round[0]) {
        LinkMoveDecreases(bounds, job, s, round[0], d);
      } else {
        NoMove(bounds, job, s, round[0]);
      }
      RoundUsesUp(bounds, job, next, round[1..], d);
      assert forall u :: u in round <==> u == round[0] || u in round[1..];
    }
  }

  lemma ValidJob(job: Job, s: Link, d: Boot)
    requires LinkInv(job, s, d)
    ensures job.Valid()
  {
  }

  lemma NoMove(bounds: seq<nat>, job: Job, s: Link, t: Turn)
    requires Increasing(bounds) && job.Valid() && !Moves(s, t)
    ensures LinkStep(bounds, job, s, t) == s
  {
  }

  lemma {:induction false} FairRoundsSettle(bounds: seq<nat>, job: Job, s: Link, rounds: seq<seq<Turn>>, d: Boot)
    requires Tiling(bounds) && LinkInv(job, s, d) && Fair(rounds) && Work(job, s) < |rounds|
    ensures
      var t := LinkRounds(bounds, job, s, rounds);
      LinkInv(job, t, d) && !Moves(t, HostTurn) && !Moves(t, DeviceTurn)
    decreases |rounds|
  {
    hide LinkInv;
    hide Work;
    var r := rounds[0];
    assert r in rounds && forall q :: q in rounds[1..] ==> q in rounds;
    ValidJob(job, s, d);
    RoundUsesUp(bounds, job, s, r, d);
    var t := LinkRun(bounds, job, s, r);
    if Work(job, t) < Work(job, s) {
      FairRoundsSettle(bounds, job, t, rounds[1..], d);
    } else {
      QuietStays(bounds, job, s, rounds);
    }
  }

  lemma {:induction false} QuietStays(bounds: seq<nat>, job: Job, s: Link, rounds: seq<seq<Turn>>)
    requires Increasing(bounds) && job.Valid() && !Moves(s, HostTurn) && !Moves(s, DeviceTurn)
    ensures LinkRounds(bounds, job, s, rounds) == s
    decreases |rounds|
  {
    hide LinkStep;
    if rounds != [] {
      QuietRound(bounds, job, s, rounds[0]);
      QuietStays(bounds, job, s, rounds[1..]);
    }
  }

  lemma {:induction false} QuietRound(bounds: seq<nat>, job: Job, s: Link, round: seq<Turn>)
    requires Increasing(bounds) && job.Valid() && !Moves(s, HostTurn) && !Moves(s, DeviceTurn)
    ensures LinkRun(bounds, job, s, round) == s
    decreases |round|
  {
    hide LinkStep;
    if round != [] {
      NoMove(bounds, job, s, round[0]);
      QuietRound(bounds, job, s, round[1..]);
    }
  }

  /** The tool about to start, nothing on the bus. */
  function BeginLink(d: Boot): Link {
    Link(Host.Start, d, [], [], false, false)
  }

  /** Whatever the bootloader did before and however the two are interleaved, as long as neither is starved:
      the tool upgrades it exactly when the file has at most 4096 bytes, and with a larger one that still fits
      the flash it ends up waiting, at 4096 bytes, for an answer that never comes. */
  lemma HostUpgradesExact(job: Job, bounds: seq<nat>, d: Boot, rounds: seq<seq<Turn>>)
    requires job.Valid() && Tiling(bounds) && |job.file| <= APP_SIZE
    requires Fair(rounds) && Work(job, BeginLink(d)) < |rounds|
    ensures
      var s := LinkRounds(bounds, job, BeginLink(d), rounds);
      && !s.broken
      && (Upgraded(job, s) <==> |job.file| <= SILENT)
      && (Stalled(s) <==> |job.file| > SILENT)
  {
    hide Work;
    assert LinkInv(job, BeginLink(d), d);
    FairRoundsSettle(bounds, job, BeginLink(d), rounds, d);
    var s := LinkRounds(bounds, job, BeginLink(d), rounds);
    Quiet(job, s, d);
    hide LinkHost;
    hide Done;
    hide LinkRounds;
  }

  // ---------------------------------------------------------------------------
  // A START that could not erase
  // ---------------------------------------------------------------------------

  /** Two bootloaders that differ in their flash alone. */
  predicate SameCounts(d: Boot, e: Boot) {
    e == d.(flash := e.flash)
  }

  lemma {:induction false} BytesIgnoreFlash(d: Boot, e: Boot, data: Bytes, outcomes: seq<bool>, k: nat)
    requires SameCounts(d, e)
    ensures
      var r, q := TakeBytes(d, data, outcomes, k), TakeBytes(e, data, outcomes, k);
      SameCounts(r.boot, q.boot) && q.replies == r.replies && q.jumped == r.jumped
    decreases |data|
  {
    hide Program;
    hide Progress;
    if data != [] && d.received < d.total {
      var d', e' := TakeByte(d, data[0]), TakeByte(e, data[0]);
      if !MustFlush(d') {
        BytesIgnoreFlash(d', e', data[1..], outcomes, k);
      } else if Ok(outcomes, k) {
        ProgressIgnoresFlash(Flush(d', true), Flush(e', true));
        BytesIgnoreFlash(Flush(d', true), Flush(e', true), data[1..], outcomes, k + 1);
      }
    }
  }

  lemma ProgressIgnoresFlash(d: Boot, e: Boot)
    requires SameCounts(d, e)
    ensures Progress(d) == Progress(e)
  {
  }

  lemma {:induction false} ErasureIgnoresFlash(bounds: seq<nat>, f: Flash, g: Flash, addr: nat, size: nat,
                                               outcomes: seq<bool>, k: nat)
    requires Increasing(bounds)
    ensures ErasePages(bounds, f, addr, size, outcomes, k).ok == ErasePages(bounds, g, addr, size, outcomes, k).ok
    decreases size
  {
    hide PageOf;
    hide Erase;
    if size > 0 && Ok(outcomes, k) {
      match PageOf(bounds, addr)
      case None =>
      case Some(page) =>
        var next, rest := addr + page.size, Rest(size, page);
        ErasureIgnoresFlash(bounds, Erase(f, page), Erase(g, page), next, rest, outcomes, k + 1);
    }
  }

  /** No answer of the bootloader, nor its jump, depends on what the flash holds. */
  lemma UpdateIgnoresFlash(bounds: seq<nat>, d: Boot, e: Boot, frame: Frame, outcomes: seq<bool>, version: Word)
    requires Increasing(bounds) && SameCounts(d, e) && !Overruns(d, frame)
    ensures
      var r, q := Update(bounds, d, frame, outcomes, version), Update(bounds, e, frame, outcomes, version);
      SameCounts(r.boot, q.boot) && q.replies == r.replies && q.jumped == r.jumped
  {
    hide DataWord;
    hide ErasePages;
    hide Program;
    hide TakeBytes;
    if frame.id == FW_DATA_RX {
      BytesIgnoreFlash(d, e, frame.data, outcomes, 0);
    } else if |frame.data| == 8 {
      ErasureIgnoresFlash(bounds, d.flash, e.flash, APP_START, Min(DataWord(frame, 1), APP_SIZE), outcomes, 0);
    }
  }

  predicate LetsRead(inbox: seq<Reply>) {
    |inbox| == 1 && HearReply(AwaitStart, inbox[0]) == Reading(0)
  }

  /** Two links that differ in the bootloader's flash, and perhaps in how the START has been answered. */
  predicate Twins(s: Link, t: Link) {
    && t == s.(boot := t.boot, inbox := t.inbox) && SameCounts(s.boot, t.boot)
    && (s.inbox == t.inbox || (s.host.AwaitStart? && s.queue == [] && LetsRead(s.inbox) && LetsRead(t.inbox)))
  }

  lemma TwinsStep(bounds: seq<nat>, job: Job, s: Link, t: Link, turn: Turn)
    requires Increasing(bounds) && job.Valid() && Twins(s, t)
    ensures Twins(LinkStep(bounds, job, s, turn), LinkStep(bounds, job, t, turn))
  {
    hide Update;
    hide HearReply;
    hide AfterSend;
    hide NextFrame;
    if turn == DeviceTurn && Moves(s, turn) && !Overruns(s.boot, s.queue[0]) {
      UpdateIgnoresFlash(bounds, s.boot, t.boot, s.queue[0], [], 0);
    }
  }

  lemma {:induction false} TwinsRun(bounds: seq<nat>, job: Job, s: Link, t: Link, schedule: seq<Turn>)
    requires Increasing(bounds) && job.Valid() && Twins(s, t)
    ensures Twins(LinkRun(bounds, job, s, schedule), LinkRun(bounds, job, t, schedule))
    decreases |schedule|
  {
    hide LinkStep;
    hide Twins;
    if schedule != [] {
      var turn := schedule[0];
      TwinsStep(bounds, job, s, t, turn);
      TwinsRun(bounds, job, LinkStep(bounds, job, s, turn), LinkStep(bounds, job, t, turn), schedule[1..]);
    }
  }

  lemma {:induction false} TwinsRounds(bounds: seq<nat>, job: Job, s: Link, t: Link, rounds: seq<seq<Turn>>)
    requires Increasing(bounds) && job.Valid() && Twins(s, t)
    ensures Twins(LinkRounds(bounds, job, s, rounds), LinkRounds(bounds, job, t, rounds))
    decreases |rounds|
  {
    hide LinkRun;
    hide Twins;
    if rounds != [] {
      TwinsRun(bounds, job, s, t, rounds[0]);
      TwinsRounds(bounds, job, LinkRun(bounds, job, s, rounds[0]), LinkRun(bounds, job, t, rounds[0]), rounds[1..]);
    }
  }

  /** The bootloader has answered the START, whose erasures may have failed. */
  function Answered(bounds: seq<nat>, job: Job, d: Boot, erasures: seq<bool>): Link
    requires Increasing(bounds) && |job.file| < WORDS
  {
    var r := Bootloader.Start(bounds, d, Command(CMD_START, |job.file|), erasures);
    Link(AwaitStart, r.boot, [], r.replies, false, false)
  }

  /** An erase that fails is answered, with value 0, and changes nothing else: the tool takes the answer for an
      acceptance, and the whole upload goes on as if the flash had been erased, to the same verdict and, for a
      file of at most 4096 bytes, the same jump. */
  lemma FailedEraseUnnoticed(job: Job, bounds: seq<nat>, d: Boot, erasures: seq<bool>, rounds: seq<seq<Turn>>)
    requires job.Valid() && Tiling(bounds) && |job.file| <= APP_SIZE && Fair(rounds)
    requires Work(job, Answered(bounds, job, d, erasures)) < |rounds|
    ensures
      var t := LinkRounds(bounds, job, Answered(bounds, job, d, erasures), rounds);
      && !t.broken
      && if |job.file| <= SILENT then t.host == Finished(Reply(Confirm, CONFIRMED)) && t.jumped else Stalled(t)
  {
    hide Work;
    var a, b := Answered(bounds, job, d, erasures), Answered(bounds, job, d, []);
    AnswersLetRead(bounds, job, d, erasures);
    AnsweredInv(bounds, job, d);
    assert Work(job, a) == Work(job, b) by { SameWork(job, a, b); }
    FairRoundsSettle(bounds, job, b, rounds, d);
    Quiet(job, LinkRounds(bounds, job, b, rounds), d);
    TwinsRounds(bounds, job, b, a, rounds);
    hide LinkRounds;
  }

  lemma SameWork(job: Job, s: Link, t: Link)
    requires s.host == t.host && s.queue == t.queue && |s.inbox| == |t.inbox|
    ensures Work(job, s) == Work(job, t)
  {
  }

  lemma AnswersLetRead(bounds: seq<nat>, job: Job, d: Boot, erasures: seq<bool>)
    requires job.Valid() && Increasing(bounds)
    ensures
      var a, b := Answered(bounds, job, d, erasures), Answered(bounds, job, d, []);
      LetsRead(a.inbox) && LetsRead(b.inbox) && Twins(b, a)
  {
    hide LittleEndian;
    hide DataWord;
    hide ErasePages;
    CommandWords(CMD_START, |job.file|);
  }

  lemma AnsweredInv(bounds: seq<nat>, job: Job, d: Boot)
    requires job.Valid() && Tiling(bounds) && |job.file| <= APP_SIZE
    ensures LinkInv(job, Answered(bounds, job, d, []), d)
  {
    hide LittleEndian;
    hide DataWord;
    hide ErasePages;
    hide Bootloader.Inv;
    CommandWords(CMD_START, |job.file|);
    TakesStart(job, bounds, d);
  }
}
