/** The host's upgrade tool talking to a device over the bus: the host sends and waits, the device
    works through its receive queue, and any interleaving of the two may happen. */
module CanUpgrade {
  import opened Words
  import opened FlashImage
  import opened CanDevice

  // ---------------------------------------------------------------------------
  // The host
  // ---------------------------------------------------------------------------

  /** Where `firmware_upgrade` stands; `n` is the number of file bytes read so far. */
  datatype Host =
    | Start
    | AwaitStart
    | Reading(n: nat)
    | AwaitProgress(n: nat)
    | AskConfirm
    | AwaitConfirm
    | Finished(last: Reply)
    | Raised

  predicate Awaiting(h: Host) {
    h.AwaitStart? || h.AwaitProgress? || h.AwaitConfirm?
  }

  predicate Over(h: Host) {
    h.Finished? || h.Raised?
  }

  function ChunkEnd(file: Bytes, n: nat): nat {
    Min(n + 8, |file|)
  }

  function DataFrame(file: Bytes, n: nat): Frame
    requires n <= |file|
  {
    Frame(FW_DATA_RX, file[n..ChunkEnd(file, n)])
  }

  datatype Job = Job(file: Bytes, test: bool) {
    ghost predicate Valid() {
      |file| < WORDS
    }
  }

  /** What a reply makes of a waiting host. */
  function HearReply(h: Host, r: Reply): Host
    requires Awaiting(h)
  {
    match h
    case AwaitStart => if r.code != Offset && r.value != 0 then Raised else Reading(0)
    case AwaitProgress(n) =>
      if r.code == UpdateSuccess && r.value == n then AskConfirm
      else if r.code != Offset then Raised
      else Reading(n)
    case AwaitConfirm => Finished(r)
  }

  datatype Outcome = Uploaded | DownloadFailed | NoVerdict | UploadError | Timeout

  /** What the tool makes of where it has ended. */
  function OutcomeOf(h: Host): Outcome {
    match h
    case Finished(r) =>
      if r == Reply(Confirm, CONFIRMED) then Uploaded
      else if r.code == TransferError then DownloadFailed
      else NoVerdict
    case Raised => UploadError
    case _ => Timeout
  }

  /** The frame the host sends next, if it is neither waiting nor done, nor at the end of the file. */
  function NextFrame(job: Job, h: Host): Option<Frame>
    requires |job.file| < WORDS
  {
    match h
    case Start => Some(Command(CMD_START, |job.file|))
    case Reading(n) => if n < |job.file| then Some(DataFrame(job.file, n)) else None
    case AskConfirm => Some(Command(CMD_CONFIRM, if job.test then 0 else 1))
    case _ => None
  }

  /** Where the host is once it has sent that frame, or found the file at its end. */
  function AfterSend(job: Job, h: Host): Host
    requires !Awaiting(h) && !Over(h)
  {
    match h
    case Start => AwaitStart
    case Reading(n) =>
      if n < |job.file| then
        var m := ChunkEnd(job.file, n);
        if m % 64 != 0 && m != |job.file| then Reading(m) else AwaitProgress(m)
      else AskConfirm
    case AskConfirm => AwaitConfirm
  }

  // ---------------------------------------------------------------------------
  // The whole system
  // ---------------------------------------------------------------------------

  const QUEUE_DEPTH: nat := 8

  /** `queue` is everything the host has sent and the device has not yet taken; `overrun` records that
      a frame found it full. */
  datatype System = System(host: Host, device: Device, queue: seq<Frame>, inbox: seq<Reply>, overrun: bool)

  datatype Turn = HostTurn | DeviceTurn

  function SendTo(s: System, frame: Frame): System {
    if |s.queue| < QUEUE_DEPTH then s.(queue := s.queue + [frame]) else s.(overrun := true)
  }

  predicate CanMove(s: System, t: Turn) {
    match t
    case HostTurn => !Over(s.host) && (Awaiting(s.host) ==> s.inbox != [])
    case DeviceTurn => s.queue != []
  }

  /** One side moves; a side that has nothing to do leaves the system alone. */
  function Step(cfg: Config, job: Job, s: System, t: Turn): System
    requires cfg.slot.block > 0 && |job.file| < WORDS
    requires s.device.OfLibrary? ==> |s.device.library.keybuf| == KEY_LEN
  {
    if !CanMove(s, t) then s
    else if t == DeviceTurn then
      var r := DeviceHandle(cfg, s.device, s.queue[0]);
      s.(device := r.device, queue := s.queue[1..], inbox := s.inbox + r.replies)
    else if Awaiting(s.host) then s.(host := HearReply(s.host, s.inbox[0]), inbox := s.inbox[1..])
    else
      var after := s.(host := AfterSend(job, s.host));
      match NextFrame(job, s.host)
      case Some(frame) => SendTo(after, frame)
      case None => after
  }

  lemma StepKeepsDevice(cfg: Config, job: Job, s: System, t: Turn)
    requires ValidDevice(cfg, s.device) && job.Valid()
    ensures ValidDevice(cfg, Step(cfg, job, s, t).device)
  {
    hide HandleKeyhash;
    hide HandlePlatform;
    hide HandleData;
    if t == DeviceTurn && s.queue != [] && s.device.OfLibrary? {
      HandleKeepsKeybuf(cfg, s.device.library, s.queue[0], SOUND);
    }
  }

  // ---------------------------------------------------------------------------
  // The frames in flight
  // ---------------------------------------------------------------------------

  /** The data frames the host sends between having read `from` and having read `to` bytes. */
  function DataFrames(file: Bytes, from: nat, to: nat): seq<Frame>
    decreases if from < to then to - from else 0
  {
    if from >= to || to > |file| then []
    else [DataFrame(file, from)] + DataFrames(file, ChunkEnd(file, from), to)
  }

  lemma {:induction false} OneMoreFrame(file: Bytes, from: nat, to: nat)
    requires from <= to < |file| && from % 8 == 0 && to % 8 == 0
    ensures DataFrames(file, from, ChunkEnd(file, to)) == DataFrames(file, from, to) + [DataFrame(file, to)]
    decreases if from < to then to - from else 0
  {
    if from == to {
      assert DataFrames(file, ChunkEnd(file, to), ChunkEnd(file, to)) == [];
    } else {
      assert ChunkEnd(file, from) == from + 8 <= to;
      OneMoreFrame(file, from + 8, to);
    }
  }

  lemma {:induction false} FramesInFlight(file: Bytes, from: nat, to: nat)
    requires from <= to <= |file| && (from % 8 == 0 || from == |file|)
    ensures 8 * |DataFrames(file, from, to)| < to - from + 8
    decreases if from < to then to - from else 0
  {
    if from < to && from + 8 <= to {
      FramesInFlight(file, from + 8, to);
    }
  }

  // ---------------------------------------------------------------------------
  // The invariant
  // ---------------------------------------------------------------------------

  /** A number of bytes after which the host stops and waits, and the device answers. */
  predicate SyncPoint(file: Bytes, n: nat) {
    n % 64 == 0 || n == |file|
  }

  function Got(d: Device): nat {
    |SlotOf(d).Contents()|
  }

  function ConfirmFrame(job: Job): Frame {
    Command(CMD_CONFIRM, if job.test then 0 else 1)
  }

  /** The device has taken in a part of the file; the frames up to `sent` are on their way to it. */
  ghost predicate Transferring(job: Job, s: System, boots: seq<Word>, sent: nat)
    requires job.Valid()
  {
    var got := Got(s.device);
    && got <= sent <= |job.file|
    && (got % 8 == 0 || got == |job.file|) && (sent % 8 == 0 || sent == |job.file|)
    && Receiving(s.device, job.file[..got], |job.file|)
    && s.queue == DataFrames(job.file, got, sent)
    && BootRequests(s.device) == boots
  }

  /** The image is in the slot, the boot request made, and no frame or reply is left over. */
  ghost predicate Completed(job: Job, s: System, boots: seq<Word>) {
    && Shows(SlotOf(s.device), job.file)
    && BootRequests(s.device) == boots + [if job.test then 0 else 1]
    && s.queue == [] && !Busy(s.device)
  }

  ghost predicate HostInv(cfg: Config, job: Job, s: System, boots: seq<Word>)
    requires job.Valid()
  {
    match s.host
    case Start =>
      Ready(cfg, s.device) && BootRequests(s.device) == boots && s.queue == [] && s.inbox == []
    case AwaitStart =>
      || (Ready(cfg, s.device) && BootRequests(s.device) == boots && s.inbox == []
          && s.queue == [Command(CMD_START, |job.file|)])
      || (Transferring(job, s, boots, 0) && s.inbox == [Reply(Offset, 0)])
    case Reading(n) =>
      && Transferring(job, s, boots, n) && s.inbox == []
      && Got(s.device) / 64 == n / 64 && (n == |job.file| ==> Got(s.device) == n)
    case AwaitProgress(n) =>
      && Transferring(job, s, boots, n) && SyncPoint(job.file, n) && n > 0
      && (Got(s.device) < n ==> s.inbox == [] && Got(s.device) / 64 == (n - 1) / 64)
      && (Got(s.device) == n ==> s.inbox == ProgressReply(n, |job.file|))
    case AskConfirm => Transferring(job, s, boots, |job.file|) && Got(s.device) == |job.file| && s.inbox == []
    case AwaitConfirm =>
      || (Receiving(s.device, job.file, |job.file|) && BootRequests(s.device) == boots && s.inbox == []
          && s.queue == [ConfirmFrame(job)])
      || (Completed(job, s, boots) && s.inbox == [Reply(Confirm, CONFIRMED)])
    case Finished(r) => r == Reply(Confirm, CONFIRMED) && Completed(job, s, boots) && s.inbox == []
    case Raised => false
  }

  ghost predicate Inv(cfg: Config, job: Job, s: System, boots: seq<Word>) {
    && job.Valid() && |job.file| <= cfg.slot.capacity
    && ValidDevice(cfg, s.device) && !s.overrun && !Refuses(cfg, s.device)
    && HostInv(cfg, job, s, boots)
  }

  /** At most eight frames are ever unprocessed, and at most one reply is ever unread. */
  lemma FlowControlled(cfg: Config, job: Job, s: System, boots: seq<Word>)
    requires Inv(cfg, job, s, boots)
    ensures |s.queue| <= QUEUE_DEPTH && |s.inbox| <= 1
    ensures !Awaiting(s.host) ==> |s.queue| < QUEUE_DEPTH
    ensures s.inbox != [] ==> Awaiting(s.host) && s.queue == []
  {
    hide Receiving;
    hide Ready;
    hide LittleEndian;
    hide DataFrame;
    if s.host.Reading? || s.host.AwaitProgress? || s.host.AskConfirm? {
      FramesInFlight(job.file, Got(s.device), if s.host.AskConfirm? then |job.file| else s.host.n);
      hide DataFrames;
    }
  }

  /** The next read of eight bytes stays in the same round of 64, or ends it. */
  lemma NextRead(file: Bytes, got: nat, n: nat)
    requires got <= n < |file| && n % 8 == 0 && got / 64 == n / 64
    ensures
      var m := ChunkEnd(file, n);
      if SyncPoint(file, m) then got / 64 == (m - 1) / 64 else got / 64 == m / 64
  {
  }

  lemma HostSendsChunk(cfg: Config, job: Job, s: System, boots: seq<Word>)
    requires Inv(cfg, job, s, boots) && s.host.Reading? && s.host.n < |job.file|
    ensures Inv(cfg, job, Step(cfg, job, s, HostTurn), boots)
  {
    hide Receiving;
    var n, got := s.host.n, Got(s.device);
    assert n % 8 == 0 && got % 8 == 0;
    FlowControlled(cfg, job, s, boots);
    OneMoreFrame(job.file, got, n);
    NextRead(job.file, got, n);
  }

  lemma HostSends(cfg: Config, job: Job, s: System, boots: seq<Word>)
    requires Inv(cfg, job, s, boots) && CanMove(s, HostTurn) && !Awaiting(s.host)
    ensures Inv(cfg, job, Step(cfg, job, s, HostTurn), boots)
  {
    if s.host.Reading? && s.host.n < |job.file| {
      HostSendsChunk(cfg, job, s, boots);
    } else {
      hide Receiving;
      assert job.file[..|job.file|] == job.file;
      assert s.host.AskConfirm? ==> s.queue == [];
    }
  }

  lemma HostHears(cfg: Config, job: Job, s: System, boots: seq<Word>)
    requires Inv(cfg, job, s, boots) && CanMove(s, HostTurn) && Awaiting(s.host)
    ensures Inv(cfg, job, Step(cfg, job, s, HostTurn), boots)
  {
    hide Receiving;
  }

  /** Taking in the next frame brings the device one chunk further and its answer, if one is due. */
  lemma TakesChunk(cfg: Config, job: Job, s: System, boots: seq<Word>, sent: nat)
    requires job.Valid() && |job.file| <= cfg.slot.capacity && ValidDevice(cfg, s.device)
    requires Transferring(job, s, boots, sent) && Got(s.device) < sent
    ensures
      var next, r := ChunkEnd(job.file, Got(s.device)), Step(cfg, job, s, DeviceTurn);
      && next <= sent && Transferring(job, r, boots, sent) && Got(r.device) == next
      && ValidDevice(cfg, r.device) && Refuses(cfg, r.device) == Refuses(cfg, s.device)
      && r == s.(device := r.device, queue := r.queue, inbox := s.inbox + ProgressReply(next, |job.file|))
  {
    hide DeviceHandle;
    hide BootRequests;
    hide ProgressReply;
    var file, got := job.file, Got(s.device);
    var next := ChunkEnd(file, got);
    assert s.queue[0] == DataFrame(file, got) && s.queue[1..] == DataFrames(file, next, sent);
    assert file[..got] + file[got..next] == file[..next];
    DataAccepted(cfg, s.device, file[..got], |file|, file[got..next]);
  }

  lemma DeviceTakesChunk(cfg: Config, job: Job, s: System, boots: seq<Word>)
    requires Inv(cfg, job, s, boots) && s.queue != [] && (s.host.Reading? || s.host.AwaitProgress?)
    ensures Inv(cfg, job, Step(cfg, job, s, DeviceTurn), boots)
  {
    var got, n := Got(s.device), s.host.n;
    assert got < n;
    assert got % 8 == 0;
    assert s.inbox == [];
    hide Transferring;
    hide Step;
    hide Got;
    hide ValidDevice;
    TakesChunk(cfg, job, s, boots, n);
    NextTaken(job.file, got, n, s.host.AwaitProgress?);
    var answer := ProgressReply(ChunkEnd(job.file, got), |job.file|);
    assert s.inbox + answer == answer;
  }

  /** Below the point the host has read to, no answer is due before the round of 64 is complete. */
  lemma NextTaken(file: Bytes, got: nat, n: nat, waiting: bool)
    requires got < n <= |file| < WORDS && got % 8 == 0 && ChunkEnd(file, got) <= n
    requires if waiting then SyncPoint(file, n) && got / 64 == (n - 1) / 64 else n < |file| && got / 64 == n / 64
    ensures
      var next := ChunkEnd(file, got);
      && (!waiting || next < n ==> ProgressReply(next, |file|) == [])
      && (if waiting then next < n ==> next / 64 == (n - 1) / 64 else next / 64 == n / 64)
  {
  }

  lemma DeviceMoves(cfg: Config, job: Job, s: System, boots: seq<Word>)
    requires Inv(cfg, job, s, boots) && CanMove(s, DeviceTurn)
    ensures Inv(cfg, job, Step(cfg, job, s, DeviceTurn), boots)
  {
    if s.host.Reading? || s.host.AwaitProgress? {
      DeviceTakesChunk(cfg, job, s, boots);
    } else {
      hide DeviceHandle;
      hide BootRequests;
      if s.host.AwaitStart? {
        StartAccepted(cfg, s.device, |job.file|);
        assert job.file[..0] == [];
      } else {
        assert s.host.AwaitConfirm?;
        ConfirmAccepted(cfg, s.device, job.file, |job.file|, if job.test then 0 else 1);
      }
    }
  }

  // ---------------------------------------------------------------------------
  // A refused START
  // ---------------------------------------------------------------------------

  /** The tool takes an answer to START for a refusal only if its value is not 0 either; the devices refuse
      with value 0, so it goes on sending the file whatever they answer. */
  lemma RefusalUnnoticed(cfg: Config, d: Library, l: Laser, frame: Frame, hw: Hardware)
    requires cfg.Valid() && |d.keybuf| == KEY_LEN
    ensures
      var (a, b) := (HandleStart(cfg, d, frame, hw), LaserStart(l, frame, hw));
      && |a.replies| == 1 == |b.replies|
      && HearReply(AwaitStart, a.replies[0]) == Reading(0)
      && HearReply(AwaitStart, b.replies[0]) == Reading(0)
  {
    hide DataWord;
  }

  // ---------------------------------------------------------------------------
  // Every interleaving
  // ---------------------------------------------------------------------------

  lemma StepKeepsInv(cfg: Config, job: Job, s: System, t: Turn, boots: seq<Word>)
    requires Inv(cfg, job, s, boots)
    ensures Inv(cfg, job, Step(cfg, job, s, t), boots)
  {
    hide HostInv;
    hide DeviceHandle;
    if CanMove(s, t) {
      match t
      case DeviceTurn => DeviceMoves(cfg, job, s, boots);
      case HostTurn =>
        if Awaiting(s.host) {
          HostHears(cfg, job, s, boots);
        } else {
          HostSends(cfg, job, s, boots);
        }
    }
  }

  /** Where a schedule of turns leads. */
  ghost function Exec(cfg: Config, job: Job, s: System, schedule: seq<Turn>): System
    requires ValidDevice(cfg, s.device) && job.Valid()
    decreases |schedule|
  {
    if schedule == [] then s
    else
      StepKeepsDevice(cfg, job, s, schedule[0]);
      Exec(cfg, job, Step(cfg, job, s, schedule[0]), schedule[1..])
  }

  lemma {:induction false} ExecKeepsInv(cfg: Config, job: Job, s: System, schedule: seq<Turn>, boots: seq<Word>)
    requires Inv(cfg, job, s, boots)
    ensures Inv(cfg, job, Exec(cfg, job, s, schedule), boots)
    decreases |schedule|
  {
    hide HostInv;
    hide Step;
    if schedule != [] {
      StepKeepsInv(cfg, job, s, schedule[0], boots);
      ExecKeepsInv(cfg, job, Step(cfg, job, s, schedule[0]), schedule[1..], boots);
    }
  }

  /** Host about to start, device ready, nothing on the bus. */
  function Begin(d: Device): System {
    System(Start, d, [], [], false)
  }

  lemma BeginInv(cfg: Config, job: Job, d: Device)
    requires job.Valid() && |job.file| <= cfg.slot.capacity && ValidDevice(cfg, d) && Ready(cfg, d)
    ensures Inv(cfg, job, Begin(d), BootRequests(d))
  {
  }

  /** Flow control, in every interleaving: the receive queue never overruns and has room for every frame the
      host sends, every reply finds the host waiting for it with no frame outstanding, and none is left over. */
  lemma RepliesMatchWaits(cfg: Config, job: Job, d: Device, schedule: seq<Turn>)
    requires job.Valid() && |job.file| <= cfg.slot.capacity && ValidDevice(cfg, d) && Ready(cfg, d)
    ensures
      var s := Exec(cfg, job, Begin(d), schedule);
      && !s.overrun && |s.queue| <= QUEUE_DEPTH && |s.inbox| <= 1
      && (!Awaiting(s.host) ==> |s.queue| < QUEUE_DEPTH)
      && (s.inbox != [] ==> Awaiting(s.host) && s.queue == [])
      && (Over(s.host) ==> s.inbox == [] && s.queue == [])
  {
    BeginInv(cfg, job, d);
    ExecKeepsInv(cfg, job, Begin(d), schedule, BootRequests(d));
    FlowControlled(cfg, job, Exec(cfg, job, Begin(d), schedule), BootRequests(d));
  }

  // ---------------------------------------------------------------------------
  // Termination
  // ---------------------------------------------------------------------------

  /** An upper bound on the frames the host has still to send, plus one for noticing the file's end. */
  function Sends(job: Job, h: Host): nat {
    match h
    case Start => |job.file| + 4
    case AwaitStart => |job.file| + 3
    case Reading(n) => (if n < |job.file| then |job.file| - n else 0) + 2
    case AwaitProgress(n) => (if n < |job.file| then |job.file| - n else 0) + 2
    case AskConfirm => 1
    case _ => 0
  }

  function Measure(job: Job, s: System): nat {
    3 * Sends(job, s.host) + 2 * |s.queue| + |s.inbox|
  }

  lemma AtMostOneReply(cfg: Config, d: Device, frame: Frame)
    requires ValidDevice(cfg, d)
    ensures |DeviceHandle(cfg, d, frame).replies| <= 1
  {
    hide BufferedWrite;
    hide DataWord;
    hide HandleKeyhash;
    if frame.id == KEYHASH_RX && d.OfLibrary? {
      KeyhashIsSilent(d.library, frame);
    }
  }

  lemma KeyhashIsSilent(d: Library, frame: Frame)
    requires |d.keybuf| == KEY_LEN
    ensures HandleKeyhash(d, frame).replies == []
  {
  }

  lemma SendingUsesUp(job: Job, h: Host)
    requires job.Valid() && !Awaiting(h) && !Over(h)
    ensures Sends(job, AfterSend(job, h)) < Sends(job, h)
  {
  }

  lemma HearingUsesUp(job: Job, h: Host, r: Reply)
    requires job.Valid() && Awaiting(h)
    ensures Sends(job, HearReply(h, r)) <= Sends(job, h)
  {
  }

  /** A move that is made uses something up. */
  lemma MovesDecrease(cfg: Config, job: Job, s: System, t: Turn)
    requires ValidDevice(cfg, s.device) && job.Valid()
    ensures
      if CanMove(s, t) then Measure(job, Step(cfg, job, s, t)) < Measure(job, s)
      else Step(cfg, job, s, t) == s
  {
    hide DeviceHandle;
    hide Sends;
    hide HearReply;
    hide AfterSend;
    hide NextFrame;
    if CanMove(s, t) {
      if t == DeviceTurn {
        AtMostOneReply(cfg, s.device, s.queue[0]);
      } else if Awaiting(s.host) {
        HearingUsesUp(job, s.host, s.inbox[0]);
      } else {
        SendingUsesUp(job, s.host);
      }
    }
  }

  /** As long as the host is not done, somebody can move. */
  lemma NoDeadlock(cfg: Config, job: Job, s: System, boots: seq<Word>)
    requires Inv(cfg, job, s, boots) && !Over(s.host)
    ensures CanMove(s, HostTurn) || CanMove(s, DeviceTurn)
  {
    hide Receiving;
  }

  lemma {:induction false} RoundDecreases(cfg: Config, job: Job, s: System, round: seq<Turn>)
    requires ValidDevice(cfg, s.device) && job.Valid()
    ensures
      var t := Exec(cfg, job, s, round);
      && ValidDevice(cfg, t.device)
      && (Measure(job, t) < Measure(job, s) || (t == s && forall u :: u in round ==> !CanMove(s, u)))
    decreases |round|
  {
    hide Step;
    hide Measure;
    if round != [] {
      StepKeepsDevice(cfg, job, s, round[0]);
      MovesDecrease(cfg, job, s, round[0]);
      RoundDecreases(cfg, job, Step(cfg, job, s, round[0]), round[1..]);
      assert forall u :: u in round <==> u == round[0] || u in round[1..];
    }
  }

  /** Several rounds one after the other. */
  ghost function ExecRounds(cfg: Config, job: Job, s: System, rounds: seq<seq<Turn>>): System
    requires ValidDevice(cfg, s.device) && job.Valid()
    decreases |rounds|
  {
    if rounds == [] then s
    else
      RoundDecreases(cfg, job, s, rounds[0]);
      ExecRounds(cfg, job, Exec(cfg, job, s, rounds[0]), rounds[1..])
  }

  predicate Fair(rounds: seq<seq<Turn>>) {
    forall r :: r in rounds ==> HostTurn in r && DeviceTurn in r
  }

  lemma {:induction false} FairRoundsFinish(cfg: Config, job: Job, s: System, boots: seq<Word>, rounds: seq<seq<Turn>>)
    requires Inv(cfg, job, s, boots) && Fair(rounds) && Measure(job, s) <= |rounds|
    ensures
      var t := ExecRounds(cfg, job, s, rounds);
      Inv(cfg, job, t, boots) && t.host.Finished?
    decreases |rounds|
  {
    hide Step;
    hide Measure;
    if rounds == [] {
      DoneAtZero(cfg, job, s, boots);
    } else {
      var r := rounds[0];
      assert r in rounds && forall q :: q in rounds[1..] ==> q in rounds;
      var t := Exec(cfg, job, s, r);
      RoundDecreases(cfg, job, s, r);
      ExecKeepsInv(cfg, job, s, r, boots);
      if Over(s.host) {
        FinishedStays(cfg, job, s, boots, rounds);
      } else {
        NoDeadlock(cfg, job, s, boots);
        FairRoundsFinish(cfg, job, t, boots, rounds[1..]);
      }
    }
  }

  lemma DoneAtZero(cfg: Config, job: Job, s: System, boots: seq<Word>)
    requires Inv(cfg, job, s, boots) && Measure(job, s) == 0
    ensures s.host.Finished?
  {
    hide Receiving;
  }

  lemma {:induction false} FinishedStays(cfg: Config, job: Job, s: System, boots: seq<Word>, rounds: seq<seq<Turn>>)
    requires Inv(cfg, job, s, boots) && Over(s.host)
    ensures ExecRounds(cfg, job, s, rounds) == s && s.host.Finished?
    decreases |rounds|
  {
    if rounds != [] {
      StuckStays(cfg, job, s, rounds[0]);
      FinishedStays(cfg, job, s, boots, rounds[1..]);
    }
  }

  lemma {:induction false} StuckStays(cfg: Config, job: Job, s: System, round: seq<Turn>)
    requires ValidDevice(cfg, s.device) && job.Valid() && Over(s.host) && s.queue == []
    ensures Exec(cfg, job, s, round) == s
    decreases |round|
  {
    if round != [] {
      StuckStays(cfg, job, s, round[1..]);
    }
  }

  /** The upgrade, end to end, with either device: however the two sides are interleaved, as long as
      neither is starved the tool finishes with the device's confirmation, which it reports as success, the slot starts
      with exactly the file's bytes, the boot request asked for (permanent unless `test`) has been made, once, and
      the device is ready for the next upload. */
  lemma UpgradeCompletes(cfg: Config, job: Job, d: Device, rounds: seq<seq<Turn>>)
    requires job.Valid() && |job.file| <= cfg.slot.capacity && ValidDevice(cfg, d) && Ready(cfg, d)
    requires Fair(rounds) && Measure(job, Begin(d)) <= |rounds|
    ensures
      var s := ExecRounds(cfg, job, Begin(d), rounds);
      && s.host == Finished(Reply(Confirm, 0x55AA55AA)) && OutcomeOf(s.host) == Uploaded
      && Shows(SlotOf(s.device), job.file)
      && BootRequests(s.device) == BootRequests(d) + [if job.test then 0 else 1]
      && s.queue == [] && s.inbox == [] && !s.overrun
      && ValidDevice(cfg, s.device) && Ready(cfg, s.device)
  {
    BeginInv(cfg, job, d);
    FairRoundsFinish(cfg, job, Begin(d), BootRequests(d), rounds);
  }

  // ---------------------------------------------------------------------------
  // One upload after the other
  // ---------------------------------------------------------------------------

  lemma {:induction false} RoundsKeepDevice(cfg: Config, job: Job, s: System, rounds: seq<seq<Turn>>)
    requires ValidDevice(cfg, s.device) && job.Valid()
    ensures ValidDevice(cfg, ExecRounds(cfg, job, s, rounds).device)
    decreases |rounds|
  {
    if rounds != [] {
      RoundDecreases(cfg, job, s, rounds[0]);
      RoundsKeepDevice(cfg, job, Exec(cfg, job, s, rounds[0]), rounds[1..]);
    }
  }

  /** Every upload is one that fits the slot and gets enough fair rounds. */
  ghost predicate Uploads(cfg: Config, jobs: seq<Job>, rounds: seq<seq<seq<Turn>>>) {
    && |jobs| == |rounds|
    && forall i :: 0 <= i < |jobs| ==>
         && jobs[i].Valid() && |jobs[i].file| <= cfg.slot.capacity
         && Fair(rounds[i]) && 3 * (|jobs[i].file| + 4) <= |rounds[i]|
  }

  /** Where the `i`th of a list of uploads ends that are made one after the other. */
  ghost function Upload(cfg: Config, d: Device, jobs: seq<Job>, rounds: seq<seq<seq<Turn>>>, i: nat): (s: System)
    requires ValidDevice(cfg, d) && Uploads(cfg, jobs, rounds) && i < |jobs|
    ensures ValidDevice(cfg, s.device)
    decreases i
  {
    var before := if i == 0 then d else Upload(cfg, d, jobs, rounds, i - 1).device;
    RoundsKeepDevice(cfg, jobs[i], Begin(before), rounds[i]);
    ExecRounds(cfg, jobs[i], Begin(before), rounds[i])
  }

  /** The boot requests that the first `n` uploads ask for. */
  function Asked(jobs: seq<Job>, n: nat): seq<Word>
    requires n <= |jobs|
  {
    seq(n, i requires 0 <= i < n => if jobs[i].test then 0 else 1)
  }

  /** Any number of uploads to a device that is ready before the first: each of them succeeds, shows its own file in
      the slot and adds its own boot request, and the device is ready for the next. */
  lemma {:induction false} EveryUploadCompletes(cfg: Config, d: Device, jobs: seq<Job>, rounds: seq<seq<seq<Turn>>>,
                                              i: nat)
    requires ValidDevice(cfg, d) && Ready(cfg, d) && Uploads(cfg, jobs, rounds) && i < |jobs|
    ensures
      var s := Upload(cfg, d, jobs, rounds, i);
      && OutcomeOf(s.host) == Uploaded && Shows(SlotOf(s.device), jobs[i].file) && Ready(cfg, s.device)
      && BootRequests(s.device) == BootRequests(d) + Asked(jobs, i + 1)
    decreases i
  {
    hide ExecRounds;
    hide BootRequests;
    hide Shows;
    if i == 0 {
      UpgradeCompletes(cfg, jobs[0], d, rounds[0]);
      assert Asked(jobs, 1) == [if jobs[0].test then 0 else 1];
    } else {
      EveryUploadCompletes(cfg, d, jobs, rounds, i - 1);
      UpgradeCompletes(cfg, jobs[i], Upload(cfg, d, jobs, rounds, i - 1).device, rounds[i]);
      assert Asked(jobs, i + 1) == Asked(jobs, i) + [if jobs[i].test then 0 else 1];
      assert BootRequests(d) + Asked(jobs, i + 1) == BootRequests(d) + Asked(jobs, i) + [if jobs[i].test then 0 else 1];
    }
  }

  // ---------------------------------------------------------------------------
  // The tool's own code
  // ---------------------------------------------------------------------------

  datatype HostRun = HostRun(sent: seq<Frame>, host: Host)

  /** What the host sends and where it ends up when the bus brings it exactly `inbox`. */
  function RunHost(job: Job, h: Host, inbox: seq<Reply>): HostRun
    requires |job.file| < WORDS
    decreases |inbox| + Sends(job, h)
  {
    if Over(h) || (Awaiting(h) && inbox == []) then HostRun([], h)
    else if Awaiting(h) then RunHost(job, HearReply(h, inbox[0]), inbox[1..])
    else
      var rest := RunHost(job, AfterSend(job, h), inbox);
      match NextFrame(job, h)
      case None => rest
      case Some(frame) => HostRun([frame] + rest.sent, rest.host)
  }

  lemma OneSent(job: Job, h: Host, inbox: seq<Reply>, frame: Frame)
    requires job.Valid() && !Awaiting(h) && !Over(h) && NextFrame(job, h) == Some(frame)
    ensures
      var rest := RunHost(job, AfterSend(job, h), inbox);
      RunHost(job, h, inbox) == HostRun([frame] + rest.sent, rest.host)
  {
  }

  lemma OneHeard(job: Job, h: Host, r: Reply, inbox: seq<Reply>)
    requires job.Valid() && Awaiting(h)
    ensures RunHost(job, h, [r] + inbox) == RunHost(job, HearReply(h, r), inbox)
  {
    assert ([r] + inbox)[1..] == inbox;
  }

  lemma KnownNext(job: Job)
    requires job == Job([7, 8, 9], false)
    ensures NextFrame(job, Start) == Some(Frame(0x101, [0, 0, 0, 0, 3, 0, 0, 0]))
    ensures NextFrame(job, Reading(0)) == Some(Frame(0x103, [7, 8, 9]))
    ensures NextFrame(job, AskConfirm) == Some(Frame(0x101, [1, 0, 0, 0, 1, 0, 0, 0]))
  {
    assert LittleEndian(0) == [0, 0, 0, 0] && LittleEndian(1) == [1, 0, 0, 0] && LittleEndian(3) == [3, 0, 0, 0];
    assert job.file[0..ChunkEnd(job.file, 0)] == [7, 8, 9];
    hide LittleEndian;
    assert Command(0, 3).data == [0, 0, 0, 0, 3, 0, 0, 0];
    assert Command(1, 1).data == [1, 0, 0, 0, 1, 0, 0, 0];
  }

  /** An upload of three bytes as it stands on the bus, and what the tool makes of the device's last answer. */
  lemma KnownUpload(last: Reply)
    ensures
      var replies := [Reply(Offset, 0), Reply(UpdateSuccess, 3), last];
      var run := RunHost(Job([7, 8, 9], false), Start, replies);
      && run.sent ==
         [Frame(0x101, [0, 0, 0, 0, 3, 0, 0, 0]), Frame(0x103, [7, 8, 9]), Frame(0x101, [1, 0, 0, 0, 1, 0, 0, 0])]
      && OutcomeOf(run.host) == if last == Reply(Confirm, 0x55AA55AA) then Uploaded
                                else if last.code == TransferError then DownloadFailed else NoVerdict
  {
    var job := Job([7, 8, 9], false);
    var (start, data) := (Frame(0x101, [0, 0, 0, 0, 3, 0, 0, 0]), Frame(0x103, [7, 8, 9]));
    var confirm := Frame(0x101, [1, 0, 0, 0, 1, 0, 0, 0]);
    KnownNext(job);
    assert RunHost(job, Finished(last), []) == HostRun([], Finished(last));
    hide RunHost;
    OneHeard(job, AwaitConfirm, last, []);
    OneSent(job, AskConfirm, [last], confirm);
    OneHeard(job, AwaitProgress(3), Reply(UpdateSuccess, 3), [last]);
    OneSent(job, Reading(0), [Reply(UpdateSuccess, 3), last], data);
    OneHeard(job, AwaitStart, Reply(Offset, 0), [Reply(UpdateSuccess, 3), last]);
    OneSent(job, Start, [Reply(Offset, 0), Reply(UpdateSuccess, 3), last], start);
    hide NextFrame;
  }

  /** The bus as the tool sees it: what it has sent, and what will be received. */
  class Bus {
    var sent: seq<Frame>
    var inbox: seq<Reply>

    constructor (inbox: seq<Reply>)
      ensures sent == [] && this.inbox == inbox
    {
      sent, this.inbox := [], inbox;
    }

    method Send(frame: Frame)
      modifies this`sent
      ensures sent == old(sent) + [frame]
    {
      sent := sent + [frame];
    }

    /** None when nothing arrives before the timeout. */
    method Recv() returns (r: Option<Reply>)
      modifies this`inbox
      ensures if old(inbox) == [] then r.None? && inbox == [] else r == Some(old(inbox)[0]) && inbox == old(inbox)[1..]
    {
      if inbox == [] {
        r := None;
      } else {
        r := Some(inbox[0]);
        inbox := inbox[1..];
      }
    }
  }

  /** What is left of the run from `h` on completes what has been sent so far. */
  ghost predicate OnTrack(job: Job, whole: HostRun, sent: seq<Frame>, h: Host, inbox: seq<Reply>)
    requires |job.file| < WORDS
  {
    var rest := RunHost(job, h, inbox);
    whole.sent == sent + rest.sent && whole.host == rest.host
  }

  lemma TrackBegin(job: Job, whole: HostRun, sent: seq<Frame>, inbox: seq<Reply>)
    requires |job.file| < WORDS
    requires whole == HostRun(sent + RunHost(job, Start, inbox).sent, RunHost(job, Start, inbox).host)
    ensures OnTrack(job, whole, sent, Start, inbox)
  {
  }

  lemma TrackSend(job: Job, whole: HostRun, sent: seq<Frame>, h: Host, inbox: seq<Reply>)
    requires |job.file| < WORDS && OnTrack(job, whole, sent, h, inbox) && !Awaiting(h) && !Over(h)
    ensures
      var more := match NextFrame(job, h) case Some(f) => [f] case None => [];
      OnTrack(job, whole, sent + more, AfterSend(job, h), inbox)
  {
  }

  lemma TrackHear(job: Job, whole: HostRun, sent: seq<Frame>, h: Host, inbox: seq<Reply>)
    requires |job.file| < WORDS && OnTrack(job, whole, sent, h, inbox) && Awaiting(h)
    ensures if inbox == [] then whole.host == h && whole.sent == sent
            else OnTrack(job, whole, sent, HearReply(h, inbox[0]), inbox[1..])
  {
  }

  lemma TrackOver(job: Job, whole: HostRun, sent: seq<Frame>, h: Host, inbox: seq<Reply>)
    requires |job.file| < WORDS && OnTrack(job, whole, sent, h, inbox) && Over(h)
    ensures whole.host == h && whole.sent == sent
  {
  }

  method FirmwareUpgrade(bus: Bus, file: Bytes, test: bool) returns (outcome: Outcome)
    requires |file| < WORDS
    modifies bus
    ensures
      var run := RunHost(Job(file, test), Start, old(bus.inbox));
      && bus.sent == old(bus.sent) + run.sent
      && outcome == OutcomeOf(run.host)
  {
    hide OnTrack;
    hide RunHost;
    ghost var job := Job(file, test);
    ghost var run := RunHost(job, Start, bus.inbox);
    ghost var whole := HostRun(bus.sent + run.sent, run.host);
    TrackBegin(job, whole, bus.sent, bus.inbox);
    TrackSend(job, whole, bus.sent, Start, bus.inbox);
    bus.Send(Command(CMD_START, |file|));
    TrackHear(job, whole, bus.sent, AwaitStart, bus.inbox);
    var r := bus.Recv();
    if r.None? {
      return Timeout;
    }
    if r.value.code != Offset && r.value.value != 0 {
      TrackOver(job, whole, bus.sent, Raised, bus.inbox);
      return UploadError;
    }
    var n := 0;
    while true
      invariant n <= |file|
      invariant OnTrack(job, whole, bus.sent, Reading(n), bus.inbox)
      decreases |file| - n
    {
      TrackSend(job, whole, bus.sent, Reading(n), bus.inbox);
      var chunk := file[n..ChunkEnd(file, n)];
      if chunk == [] {
        assert bus.sent + [] == bus.sent;
        break;
      }
      n := n + |chunk|;
      bus.Send(Frame(FW_DATA_RX, chunk));
      if n % 64 != 0 && n != |file| {
        continue;
      }
      TrackHear(job, whole, bus.sent, AwaitProgress(n), bus.inbox);
      r := bus.Recv();
      if r.None? {
        return Timeout;
      }
      if r.value.code == UpdateSuccess && r.value.value == n {
        break;
      }
      if r.value.code != Offset {
        TrackOver(job, whole, bus.sent, Raised, bus.inbox);
        return UploadError;
      }
    }
    TrackSend(job, whole, bus.sent, AskConfirm, bus.inbox);
    bus.Send(Command(CMD_CONFIRM, if test then 0 else 1));
    TrackHear(job, whole, bus.sent, AwaitConfirm, bus.inbox);
    r := bus.Recv();
    if r.None? {
      return Timeout;
    }
    TrackOver(job, whole, bus.sent, Finished(r.value), bus.inbox);
    if r.value.code == Confirm && r.value.value == CONFIRMED {
      outcome := Uploaded;
    } else if r.value.code == TransferError {
      outcome := DownloadFailed;
    } else {
      outcome := NoVerdict;
    }
  }
}
