/** What the tool's success is worth: whatever state the device is in when the upload begins, what its slot
    shows when the tool reports that the upload has finished. */
module CanVerdict {
  import opened Words
  import opened FlashImage
  import opened CanDevice
  import opened CanUpgrade

  // ---------------------------------------------------------------------------
  // What the START leaves
  // ---------------------------------------------------------------------------

  /** A library in the middle of a transfer has counted what its stream has taken in. */
  ghost predicate Counted(cfg: Config, d: Device) {
    Busy(d) ==> d.library.written == |d.library.img.Contents()| <= cfg.slot.capacity
  }

  /** What a device has, counts and waits for once it has answered the START. */
  datatype Base = Base(running: bool, had: Bytes, count: Word, total: Word, erased: bool)

  function BaseOf(cfg: Config, job: Job, d: Device): Base
    requires |job.file| < WORDS
  {
    if Busy(d) then
      var total := if Refuses(cfg, d) then d.library.total else |job.file|;
      Base(true, d.library.img.Contents(), d.library.written, total, d.library.img.erased)
    else Base(!Refuses(cfg, d), [], 0, |job.file|, true)
  }

  function Counter(d: Device): Word {
    match d
    case OfLibrary(library) => library.written
    case OfLaser(laser) => laser.offset
  }

  function TotalOf(d: Device): Word {
    match d
    case OfLibrary(library) => library.total
    case OfLaser(laser) => laser.total
  }

  /** The device after the first `got` bytes of the file. */
  ghost predicate Counts(cfg: Config, job: Job, b: Base, d: Device, got: nat)
    requires got <= |job.file|
  {
    if !b.running then d.OfLibrary? && !d.library.initialized && got == 0
    else
      && (d.OfLibrary? ==> d.library.initialized)
      && (d.OfLaser? ==> b.had == [] && b.count == 0)
      && SlotOf(d).Contents() == b.had + job.file[..got] && |SlotOf(d).Contents()| <= cfg.slot.capacity
      && SlotOf(d).erased == b.erased
      && Counter(d) == Plus(b.count, got) && TotalOf(d) == b.total
  }

  /** How far the device has got. */
  function Taken(b: Base, d: Device): nat {
    if b.running && |b.had| <= Got(d) then Got(d) - |b.had| else 0
  }

  lemma StartLeavesBase(cfg: Config, job: Job, d: Device)
    requires job.Valid() && ValidDevice(cfg, d) && Counted(cfg, d)
    ensures
      var r := DeviceHandle(cfg, d, Command(CMD_START, |job.file|));
      && ValidDevice(cfg, r.device) && Counts(cfg, job, BaseOf(cfg, job, d), r.device, 0)
      && BootRequests(r.device) == BootRequests(d)
      && |r.replies| == 1 && HearReply(AwaitStart, r.replies[0]) == Reading(0)
  {
    hide LittleEndian;
    hide DataWord;
    CommandWords(CMD_START, |job.file|);
    assert job.file[..0] == [];
    if Busy(d) {
      assert d.library.img.Contents() + [] == d.library.img.Contents();
    }
  }

  // ---------------------------------------------------------------------------
  // Answers
  // ---------------------------------------------------------------------------

  /** What a transfer that runs as it should answers to data. */
  predicate Harmless(b: Base, r: Reply) {
    r.code == Offset || r == Reply(UpdateSuccess, b.total)
  }

  predicate Fatal(r: Reply) {
    r.code == FlashError || r.code == TransferError || r.code == KeyhashError
  }

  function Answer(b: Base, got: nat): seq<Reply> {
    var count := Plus(b.count, got);
    if count == b.total then [Reply(UpdateSuccess, b.total)] else if count % 64 == 0 then [Reply(Offset, count)] else []
  }

  lemma ChunkWritten(slot: Slot, img: Image, had: Bytes, file: Bytes, got: nat)
    requires slot.block > 0 && got < |file| && img.Contents() == had + file[..got]
    ensures
      var next := ChunkEnd(file, got);
      var r := BufferedWrite(slot, img, file[got..next], false, true);
      r.Some? ==> r.value.Contents() == had + file[..next] && |r.value.Contents()| <= slot.capacity
                  && r.value.erased == img.erased
  {
    hide WholeBlocks;
    var next := ChunkEnd(file, got);
    if HasRoom(slot, img, file[got..next]) {
      WriteAppends(slot, img, file[got..next], false);
      assert (had + file[..got]) + file[got..next] == had + file[..next] by {
        assert file[..got] + file[got..next] == file[..next];
      }
    }
  }

  /** A data frame is taken in and answered as usual, or answered with an error. */
  lemma DataTaken(cfg: Config, job: Job, b: Base, d: Device, got: nat)
    requires job.Valid() && ValidDevice(cfg, d) && got < |job.file| && Counts(cfg, job, b, d, got)
    ensures
      var r := DeviceHandle(cfg, d, DataFrame(job.file, got));
      var next := ChunkEnd(job.file, got);
      && ValidDevice(cfg, r.device) && BootRequests(r.device) == BootRequests(d)
      && (|| (|r.replies| == 1 && Fatal(r.replies[0]))
          || (&& b.running && Counts(cfg, job, b, r.device, next) && Taken(b, r.device) == next
              && r.replies == Answer(b, next)))
  {
    hide BufferedWrite;
    var file, next := job.file, ChunkEnd(job.file, got);
    if b.running {
      ChunkWritten(cfg.slot, SlotOf(d), b.had, file, got);
      PlusPlus(b.count, got, |file[got..next]|);
      hide Plus;
      hide ChunkEnd;
    }
  }

  /** What CONFIRM makes of a device that has been sent `sent` bytes: an error, or, exactly with the count it waits
      for, the confirmation, with all it has taken in brought into the slot. */
  lemma ConfirmTaken(cfg: Config, job: Job, b: Base, d: Device, sent: nat)
    requires job.Valid() && ValidDevice(cfg, d) && sent <= |job.file| && Counts(cfg, job, b, d, sent)
    ensures
      var r := DeviceHandle(cfg, d, ConfirmFrame(job));
      && ValidDevice(cfg, r.device) && |r.replies| == 1
      && (|| Fatal(r.replies[0])
          || (&& r.replies[0] == Reply(Confirm, CONFIRMED)
              && b.running && Plus(b.count, sent) == b.total
              && BootRequests(r.device) == BootRequests(d) + [if job.test then 0 else 1]
              && SlotOf(r.device).flushed == b.had + job.file[..sent] && SlotOf(r.device).erased == b.erased))
  {
    hide LittleEndian;
    hide DataWord;
    hide BufferedWrite;
    CommandWords(CMD_CONFIRM, if job.test then 0 else 1);
    if b.running {
      FlushExact(cfg.slot, SlotOf(d), true);
    }
  }

  // ---------------------------------------------------------------------------
  // The invariant
  // ---------------------------------------------------------------------------

  /** An error that the tool is going to read before it could read a confirmation. */
  predicate Poisoned(inbox: seq<Reply>) {
    inbox != [] && inbox[0].code != Confirm && (Fatal(inbox[0]) || Poisoned(inbox[1..]))
  }

  lemma {:induction false} PoisonedStays(inbox: seq<Reply>, more: seq<Reply>)
    requires Poisoned(inbox)
    ensures Poisoned(inbox + more)
    decreases |inbox|
  {
    if !Fatal(inbox[0]) {
      PoisonedStays(inbox[1..], more);
      assert (inbox + more)[1..] == inbox[1..] + more;
    }
  }

  lemma {:induction false} ErrorPoisons(b: Base, inbox: seq<Reply>, r: Reply)
    requires Fatal(r) && forall q :: q in inbox ==> Harmless(b, q)
    ensures Poisoned(inbox + [r])
    decreases |inbox|
  {
    if inbox != [] {
      assert inbox[0] in inbox && forall q :: q in inbox[1..] ==> q in inbox;
      ErrorPoisons(b, inbox[1..], r);
      assert (inbox + [r])[1..] == inbox[1..] + [r];
    }
  }

  /** Whatever happens from here on, the tool does not report success. */
  predicate Lost(s: System) {
    match s.host
    case Start => false
    case AwaitStart => false
    case Finished(r) => r.code != Confirm
    case Raised => true
    case AwaitConfirm => s.inbox != [] && s.inbox[0].code != Confirm
    case _ => Poisoned(s.inbox)
  }

  lemma LostStays(cfg: Config, job: Job, s: System, t: Turn)
    requires job.Valid() && ValidDevice(cfg, s.device) && Lost(s)
    ensures Lost(Step(cfg, job, s, t))
  {
    hide DeviceHandle;
    if CanMove(s, t) && t == DeviceTurn && (s.host.Reading? || s.host.AwaitProgress? || s.host.AskConfirm?) {
      PoisonedStays(s.inbox, DeviceHandle(cfg, s.device, s.queue[0]).replies);
    }
  }

  /** The device has taken in a part of the file after what it had; the rest up to `sent` is on its way, and `tail`
      behind it. */
  ghost predicate Flying(cfg: Config, job: Job, b: Base, s: System, boots: seq<Word>, sent: nat, tail: seq<Frame>)
    requires job.Valid()
  {
    var got := Taken(b, s.device);
    && got <= sent <= |job.file|
    && (got % 8 == 0 || got == |job.file|) && (sent % 8 == 0 || sent == |job.file|)
    && Counts(cfg, job, b, s.device, got)
    && s.queue == DataFrames(job.file, got, sent) + tail
    && BootRequests(s.device) == boots
    && forall r :: r in s.inbox ==> Harmless(b, r)
  }

  /** When the count of a transfer is reached, the last answer waiting says so. */
  ghost predicate Announced(b: Base, s: System) {
    var got := Taken(b, s.device);
    b.running && got > 0 && Plus(b.count, got) == b.total ==>
      s.inbox != [] && s.inbox[|s.inbox| - 1] == Reply(UpdateSuccess, b.total)
  }

  /** The tool has stopped sending data: at the end of the file, or at a success it took for its own. */
  ghost predicate Stopped(job: Job, b: Base, s: System, sent: nat) {
    || (sent == b.total && sent > 0 && SyncPoint(job.file, sent))
    || (sent == |job.file| && Announced(b, s))
  }

  /** The device has confirmed. */
  ghost predicate Won(job: Job, b: Base, s: System, boots: seq<Word>, sent: nat) {
    && b.running && sent <= |job.file| && Plus(b.count, sent) == b.total
    && (sent > 0 ==> sent == b.total && SyncPoint(job.file, sent)) && (sent == 0 ==> job.file == [])
    && SlotOf(s.device).flushed == b.had + job.file[..sent] && SlotOf(s.device).erased == b.erased
    && BootRequests(s.device) == boots + [if job.test then 0 else 1]
  }

  ghost predicate OnCourse(cfg: Config, job: Job, d: Device, s: System)
    requires job.Valid()
  {
    var b, boots := BaseOf(cfg, job, d), BootRequests(d);
    match s.host
    case Start => s.device == d && s.queue == [] && s.inbox == []
    case AwaitStart =>
      || (s.device == d && s.queue == [Command(CMD_START, |job.file|)] && s.inbox == [])
      || (Flying(cfg, job, b, s.(inbox := []), boots, 0, []) && |s.inbox| == 1
          && HearReply(AwaitStart, s.inbox[0]) == Reading(0))
    case Reading(n) => Flying(cfg, job, b, s, boots, n, []) && Announced(b, s)
    case AwaitProgress(n) =>
      Flying(cfg, job, b, s, boots, n, []) && Announced(b, s) && n > 0 && SyncPoint(job.file, n)
    case AskConfirm =>
      exists sent: nat :: Flying(cfg, job, b, s, boots, sent, []) && Stopped(job, b, s, sent)
    case AwaitConfirm =>
      || (exists sent: nat ::
            Flying(cfg, job, b, s, boots, sent, [ConfirmFrame(job)]) && Stopped(job, b, s, sent))
      || (s.inbox == [Reply(Confirm, CONFIRMED)] && s.queue == [] && exists sent: nat :: Won(job, b, s, boots, sent))
    case Finished(r) =>
      r == Reply(Confirm, CONFIRMED) && s.queue == [] && exists sent: nat :: Won(job, b, s, boots, sent)
    case Raised => false
  }

  /** In every schedule, until a frame finds the queue full. */
  ghost predicate Tracked(cfg: Config, job: Job, d: Device, s: System) {
    && job.Valid() && ValidDevice(cfg, s.device)
    && (s.overrun || Lost(s) || OnCourse(cfg, job, d, s))
  }

  // ---------------------------------------------------------------------------
  // Every move keeps it
  // ---------------------------------------------------------------------------

  /** The device handles one more data frame: it gets one chunk further, or answers with an error. */
  lemma DataStep(cfg: Config, job: Job, b: Base, s: System, boots: seq<Word>, sent: nat, tail: seq<Frame>)
    requires job.Valid() && ValidDevice(cfg, s.device)
    requires Flying(cfg, job, b, s, boots, sent, tail) && Taken(b, s.device) < sent
    ensures
      var r := Step(cfg, job, s, DeviceTurn);
      && ValidDevice(cfg, r.device) && r.host == s.host && r.overrun == s.overrun
      && ((&& Flying(cfg, job, b, r, boots, sent, tail) && Announced(b, r)
           && Taken(b, r.device) == ChunkEnd(job.file, Taken(b, s.device))
           && r.inbox == s.inbox + Answer(b, Taken(b, r.device)))
          || (|r.inbox| == |s.inbox| + 1 && r.inbox == s.inbox + [r.inbox[|s.inbox|]] && Fatal(r.inbox[|s.inbox|])))
  {
    hide DeviceHandle;
    hide BootRequests;
    hide Counts;
    hide Taken;
    var file, got := job.file, Taken(b, s.device);
    var next := ChunkEnd(file, got);
    assert s.queue[0] == DataFrame(file, got) && s.queue[1..] == DataFrames(file, next, sent) + tail by {
      assert DataFrames(file, got, sent) == [DataFrame(file, got)] + DataFrames(file, next, sent);
    }
    DataTaken(cfg, job, b, s.device, got);
    var h := DeviceHandle(cfg, s.device, s.queue[0]);
    if !(|h.replies| == 1 && Fatal(h.replies[0])) {
      assert forall r :: r in h.replies ==> Harmless(b, r);
    }
  }

  lemma DataKeeps(cfg: Config, job: Job, d: Device, s: System, sent: nat, tail: seq<Frame>)
    requires Tracked(cfg, job, d, s) && !s.overrun && !Lost(s)
    requires s.host.Reading? || s.host.AwaitProgress? || s.host.AskConfirm? || s.host.AwaitConfirm?
    requires
      var b, boots := BaseOf(cfg, job, d), BootRequests(d);
      && Flying(cfg, job, b, s, boots, sent, tail) && Taken(b, s.device) < sent
      && (s.host.Reading? || s.host.AwaitProgress? ==> s.host.n == sent)
      && (s.host.AskConfirm? || s.host.AwaitConfirm? ==> Stopped(job, b, s, sent))
      && tail == if s.host.AwaitConfirm? then [ConfirmFrame(job)] else []
    ensures Tracked(cfg, job, d, Step(cfg, job, s, DeviceTurn))
  {
    hide Flying;
    hide Announced;
    hide Step;
    hide BaseOf;
    var b, boots := BaseOf(cfg, job, d), BootRequests(d);
    DataStep(cfg, job, b, s, boots, sent, tail);
    var r := Step(cfg, job, s, DeviceTurn);
    assert forall q :: q in s.inbox ==> Harmless(b, q) by { FlyingHarmless(cfg, job, b, s, boots, sent, tail); }
    if Flying(cfg, job, b, r, boots, sent, tail) && Announced(b, r) {
      FlyingHarmless(cfg, job, b, r, boots, sent, tail);
      if s.host.AskConfirm? || s.host.AwaitConfirm? {
        assert Stopped(job, b, r, sent);
      }
    } else {
      ErrorPoisons(b, s.inbox, r.inbox[|s.inbox|]);
    }
  }

  lemma FlyingHarmless(cfg: Config, job: Job, b: Base, s: System, boots: seq<Word>, sent: nat, tail: seq<Frame>)
    requires job.Valid() && Flying(cfg, job, b, s, boots, sent, tail)
    ensures forall r :: r in s.inbox ==> Harmless(b, r)
  {
  }

  lemma NotConfirmed(b: Base, inbox: seq<Reply>)
    requires forall r :: r in inbox ==> Harmless(b, r)
    ensures inbox == [] || inbox[0].code != Confirm
  {
    assert inbox == [] || inbox[0] in inbox;
  }

  /** The device handles the CONFIRM. */
  lemma ConfirmKeeps(cfg: Config, job: Job, d: Device, s: System, sent: nat)
    requires Tracked(cfg, job, d, s) && !s.overrun && !Lost(s) && s.host.AwaitConfirm?
    requires
      var b, boots := BaseOf(cfg, job, d), BootRequests(d);
      && Flying(cfg, job, b, s, boots, sent, [ConfirmFrame(job)]) && Taken(b, s.device) == sent
      && Stopped(job, b, s, sent)
    ensures Tracked(cfg, job, d, Step(cfg, job, s, DeviceTurn))
  {
    hide DeviceHandle;
    hide BootRequests;
    hide BaseOf;
    hide Counts;
    var b, boots := BaseOf(cfg, job, d), BootRequests(d);
    assert DataFrames(job.file, sent, sent) == [];
    assert s.queue[0] == ConfirmFrame(job) && s.queue[1..] == [];
    ConfirmTaken(cfg, job, b, s.device, sent);
    var h, r := DeviceHandle(cfg, s.device, s.queue[0]), Step(cfg, job, s, DeviceTurn);
    NotConfirmed(b, s.inbox);
    assert r.inbox == h.replies;
    if !Fatal(h.replies[0]) {
      assert Won(job, b, r, boots, sent);
    }
  }

  lemma StartKeeps(cfg: Config, job: Job, d: Device, s: System)
    requires Tracked(cfg, job, d, s) && !s.overrun && s.host.AwaitStart? && s.queue != [] && Counted(cfg, d)
    ensures Tracked(cfg, job, d, Step(cfg, job, s, DeviceTurn))
  {
    hide DeviceHandle;
    hide BootRequests;
    hide BaseOf;
    var b, boots := BaseOf(cfg, job, d), BootRequests(d);
    if s.device == d && s.queue == [Command(CMD_START, |job.file|)] && s.inbox == [] {
      StartLeavesBase(cfg, job, d);
      var r := Step(cfg, job, s, DeviceTurn);
      assert Taken(b, r.device) == 0;
      assert Flying(cfg, job, b, r.(inbox := []), boots, 0, []);
    }
  }

  lemma DeviceKeeps(cfg: Config, job: Job, d: Device, s: System)
    requires Tracked(cfg, job, d, s) && CanMove(s, DeviceTurn) && Counted(cfg, d)
    ensures Tracked(cfg, job, d, Step(cfg, job, s, DeviceTurn))
  {
    hide Flying;
    hide Stopped;
    hide Announced;
    hide Won;
    hide Lost;
    hide BaseOf;
    StepKeepsDevice(cfg, job, s, DeviceTurn);
    var b, boots := BaseOf(cfg, job, d), BootRequests(d);
    if s.overrun {
      hide DeviceHandle;
    } else if Lost(s) {
      LostStays(cfg, job, s, DeviceTurn);
    } else {
      hide Step;
      match s.host
      case AwaitStart => StartKeeps(cfg, job, d, s);
      case Reading(n) => NothingFlying(cfg, job, b, s, boots, n, []); DataKeeps(cfg, job, d, s, n, []);
      case AwaitProgress(n) => NothingFlying(cfg, job, b, s, boots, n, []); DataKeeps(cfg, job, d, s, n, []);
      case AskConfirm =>
        var sent: nat :| Flying(cfg, job, b, s, boots, sent, []) && Stopped(job, b, s, sent);
        NothingFlying(cfg, job, b, s, boots, sent, []);
        DataKeeps(cfg, job, d, s, sent, []);
      case AwaitConfirm =>
        var tail := [ConfirmFrame(job)];
        if sent: nat :| Flying(cfg, job, b, s, boots, sent, tail) && Stopped(job, b, s, sent) {
          NothingFlying(cfg, job, b, s, boots, sent, tail);
          if Taken(b, s.device) < sent {
            DataKeeps(cfg, job, d, s, sent, tail);
          } else {
            ConfirmKeeps(cfg, job, d, s, sent);
          }
        }
      case _ =>
    }
  }

  /** Without data frames on their way the device has got as far as they were sent. */
  lemma NothingFlying(cfg: Config, job: Job, b: Base, s: System, boots: seq<Word>, sent: nat, tail: seq<Frame>)
    requires job.Valid() && Flying(cfg, job, b, s, boots, sent, tail)
    ensures Taken(b, s.device) <= sent && (Taken(b, s.device) == sent ==> s.queue == tail)
  {
    if Taken(b, s.device) == sent {
      assert DataFrames(job.file, sent, sent) == [];
      assert [] + tail == tail;
    }
  }

  /** The host reads and sends the next chunk. */
  lemma ChunkSent(cfg: Config, job: Job, b: Base, s: System, boots: seq<Word>)
    requires job.Valid() && s.host.Reading? && s.host.n < |job.file| && ValidDevice(cfg, s.device)
    requires Flying(cfg, job, b, s, boots, s.host.n, [])
    ensures
      var r, next := Step(cfg, job, s, HostTurn), ChunkEnd(job.file, s.host.n);
      && r.device == s.device && r.inbox == s.inbox
      && r.host == (if SyncPoint(job.file, next) then AwaitProgress(next) else Reading(next))
      && (!r.overrun ==> Flying(cfg, job, b, r, boots, next, []) && (Announced(b, s) ==> Announced(b, r)))
  {
    hide Counts;
    hide BootRequests;
    var n, got := s.host.n, Taken(b, s.device);
    assert n % 8 == 0 && got % 8 == 0;
    OneMoreFrame(job.file, got, n);
    assert s.queue + [DataFrame(job.file, n)] == DataFrames(job.file, got, ChunkEnd(job.file, n)) + [];
  }

  lemma HostSendKeeps(cfg: Config, job: Job, d: Device, s: System)
    requires Tracked(cfg, job, d, s) && CanMove(s, HostTurn) && !Awaiting(s.host) && !s.overrun && !Lost(s)
    ensures Tracked(cfg, job, d, Step(cfg, job, s, HostTurn))
  {
    hide BaseOf;
    hide BootRequests;
    hide Counts;
    hide DataFrames;
    var b, boots := BaseOf(cfg, job, d), BootRequests(d);
    var r := Step(cfg, job, s, HostTurn);
    match s.host
    case Start => assert s.queue + [Command(CMD_START, |job.file|)] == [Command(CMD_START, |job.file|)];
    case Reading(n) =>
      if n < |job.file| {
        hide Flying;
        hide Announced;
        hide Step;
        ChunkSent(cfg, job, b, s, boots);
      } else {
        assert Stopped(job, b, r, n);
      }
    case AskConfirm =>
      var sent: nat :| Flying(cfg, job, b, s, boots, sent, []) && Stopped(job, b, s, sent);
      assert Stopped(job, b, r, sent);
      if !r.overrun {
        var flying := DataFrames(job.file, Taken(b, s.device), sent);
        assert (flying + []) + [ConfirmFrame(job)] == flying + [ConfirmFrame(job)];
        assert Flying(cfg, job, b, r, boots, sent, [ConfirmFrame(job)]);
      }
  }

  lemma HostHearKeeps(cfg: Config, job: Job, d: Device, s: System)
    requires Tracked(cfg, job, d, s) && CanMove(s, HostTurn) && Awaiting(s.host) && !s.overrun && !Lost(s)
    ensures Tracked(cfg, job, d, Step(cfg, job, s, HostTurn))
  {
    hide BaseOf;
    hide BootRequests;
    hide Counts;
    hide DataFrames;
    var b, boots := BaseOf(cfg, job, d), BootRequests(d);
    var r := Step(cfg, job, s, HostTurn);
    assert s.inbox[0] in s.inbox && forall q :: q in r.inbox ==> q in s.inbox;
    match s.host
    case AwaitStart =>
      assert r.inbox == [] && r == s.(inbox := [], host := Reading(0));
    case AwaitProgress(n) =>
      if s.inbox[0].code == UpdateSuccess {
        assert n == b.total ==> Stopped(job, b, r, n);
      } else {
        assert s.inbox[0].code == Offset;
      }
    case AwaitConfirm =>
      if sent: nat :| Won(job, b, s, boots, sent) && s.inbox == [Reply(Confirm, CONFIRMED)] {
        assert Won(job, b, r, boots, sent);
      }
  }

  lemma StepKeepsTracked(cfg: Config, job: Job, d: Device, s: System, t: Turn)
    requires Tracked(cfg, job, d, s) && Counted(cfg, d)
    ensures Tracked(cfg, job, d, Step(cfg, job, s, t))
  {
    hide OnCourse;
    hide Lost;
    StepKeepsDevice(cfg, job, s, t);
    if CanMove(s, t) {
      if t == DeviceTurn {
        DeviceKeeps(cfg, job, d, s);
      } else if s.overrun {
        assert Step(cfg, job, s, t).overrun;
      } else if Lost(s) {
        LostStays(cfg, job, s, t);
      } else if Awaiting(s.host) {
        HostHearKeeps(cfg, job, d, s);
      } else {
        HostSendKeeps(cfg, job, d, s);
      }
    }
  }

  lemma {:induction false} ExecKeepsTracked(cfg: Config, job: Job, d: Device, s: System, schedule: seq<Turn>)
    requires Tracked(cfg, job, d, s) && Counted(cfg, d)
    ensures Tracked(cfg, job, d, Exec(cfg, job, s, schedule))
    decreases |schedule|
  {
    hide OnCourse;
    hide Lost;
    hide Step;
    if schedule != [] {
      StepKeepsTracked(cfg, job, d, s, schedule[0]);
      ExecKeepsTracked(cfg, job, d, Step(cfg, job, s, schedule[0]), schedule[1..]);
    }
  }

  // ---------------------------------------------------------------------------
  // What success means
  // ---------------------------------------------------------------------------

  /** The transfers a refused START leaves running that the tool takes for its own: one that has brought no byte
      and ends at a multiple of 64 inside the file, or, for an empty file, one that has just come to its end. */
  predicate Misleading(cfg: Config, job: Job, d: Device) {
    && Refuses(cfg, d) && Busy(d)
    && (|| (d.library.written == 0 && 0 < d.library.total < |job.file| && d.library.total % 64 == 0)
        || (job.file == [] && d.library.written == d.library.total > 0))
  }

  /** Whatever state the device is in and however the two sides are interleaved, as long as no frame finds the
      receive queue full: when the tool reports success, one boot request has been made, the one it asked for, and
      the slot shows the file, unless a refused START left a misleading transfer running or the running transfer
      had not got an erased slot. */
  lemma SuccessExact(cfg: Config, job: Job, d: Device, schedule: seq<Turn>)
    requires job.Valid() && ValidDevice(cfg, d) && Counted(cfg, d)
    ensures
      var s := Exec(cfg, job, Begin(d), schedule);
      !s.overrun && OutcomeOf(s.host) == Uploaded ==>
        && BootRequests(s.device) == BootRequests(d) + [if job.test then 0 else 1]
        && (Shows(SlotOf(s.device), job.file) <==>
              !Misleading(cfg, job, d) && (Busy(d) ==> d.library.img.erased))
  {
    hide Flying;
    hide Counted;
    ExecKeepsTracked(cfg, job, d, Begin(d), schedule);
    var s, b := Exec(cfg, job, Begin(d), schedule), BaseOf(cfg, job, d);
    if !s.overrun && s.host == Finished(Reply(Confirm, CONFIRMED)) {
      var sent: nat :| Won(job, b, s, BootRequests(d), sent);
      WonShows(cfg, job, d, s, sent);
    }
  }

  lemma WonShows(cfg: Config, job: Job, d: Device, s: System, sent: nat)
    requires job.Valid() && Counted(cfg, d) && Won(job, BaseOf(cfg, job, d), s, BootRequests(d), sent)
    ensures
      Shows(SlotOf(s.device), job.file) <==> !Misleading(cfg, job, d) && (Busy(d) ==> d.library.img.erased)
  {
    var b := BaseOf(cfg, job, d);
    var flushed := SlotOf(s.device).flushed;
    assert |flushed| == |b.had| + sent;
    if sent == |job.file| && b.had == [] {
      assert job.file[..sent] == job.file;
      assert flushed == job.file;
    }
  }
}
