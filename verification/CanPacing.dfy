/** Flow control for every device state and every file: when the receive queue has room for whatever the host
    sends. */
module CanPacing {
  import opened Words
  import opened FlashImage
  import opened CanDevice
  import opened CanUpgrade
  import opened CanVerdict

  /** Where the host stops next after having read `n` bytes. */
  function NextStop(file: Bytes, n: nat): nat {
    Min(n / 64 * 64 + 64, |file|)
  }

  /** An answer with which the host gives up at its next stop. */
  predicate EndsUpload(stop: nat, r: Reply) {
    r.code != Offset && !(r.code == UpdateSuccess && r.value == stop)
  }

  /** The answers come at the stops, unless one of them ends the upload. */
  ghost predicate InStep(cfg: Config, job: Job, b: Base, s: System, boots: seq<Word>)
    requires job.Valid() && (s.host.Reading? || s.host.AwaitProgress?)
  {
    var n, got := s.host.n, Taken(b, s.device);
    && Flying(cfg, job, b, s, boots, n, [])
    && if s.host.Reading? then s.inbox == [] && got / 64 == n / 64 && (n == |job.file| ==> got == n)
       else && n > 0 && SyncPoint(job.file, n)
            && (if got < n then s.inbox == [] && got / 64 == (n - 1) / 64 else |s.inbox| <= 1)
  }

  /** The queue has room for what the host sends before it waits. */
  ghost predicate Paced(cfg: Config, job: Job, d: Device, s: System)
    requires job.Valid()
  {
    var b, boots := BaseOf(cfg, job, d), BootRequests(d);
    match s.host
    case Start => OnCourse(cfg, job, d, s)
    case AwaitStart => OnCourse(cfg, job, d, s)
    case Reading(n) =>
      || InStep(cfg, job, b, s, boots)
      || (n < |job.file| && n % 8 == 0 && 8 * |s.queue| <= n % 64
          && s.inbox != [] && EndsUpload(NextStop(job.file, n), s.inbox[0]))
    case AwaitProgress(n) =>
      || InStep(cfg, job, b, s, boots)
      || (n <= |job.file| && s.inbox != [] && EndsUpload(n, s.inbox[0]))
    case AskConfirm => |s.queue| < QUEUE_DEPTH
    case _ => true
  }

  /** Between two stops, a count that began at a multiple of 64 neither gives an answer that lets the host go on,
      nor reaches the number the host waits for. */
  lemma EarlyAnswer(b: Base, next: nat, stop: nat)
    requires b.count % 64 == 0 && next < stop < next + 64 && (next + 63) / 64 == (stop + 63) / 64 && stop < WORDS
    ensures forall r :: r in Answer(b, next) ==> EndsUpload(stop, r)
  {
  }

  lemma RoundRoom(file: Bytes, got: nat, n: nat, frames: nat)
    requires got <= n <= |file| && 8 * frames < n - got + 8 && (n % 8 == 0 || n == |file|) && got / 64 == n / 64
    ensures n - got <= n % 64 && (n < |file| ==> frames < QUEUE_DEPTH)
  {
    assert got >= n / 64 * 64;
  }

  lemma FlyingFrames(cfg: Config, job: Job, b: Base, s: System, boots: seq<Word>, sent: nat)
    requires job.Valid() && Flying(cfg, job, b, s, boots, sent, [])
    ensures
      var got := Taken(b, s.device);
      && got <= sent <= |job.file| && (got % 8 == 0 || got == |job.file|) && (sent % 8 == 0 || sent == |job.file|)
      && 8 * |s.queue| < sent - got + 8 && (got == sent ==> s.queue == [])
  {
    hide Counts;
    FramesInFlight(job.file, Taken(b, s.device), sent);
    hide DataFrames;
    NothingFlying(cfg, job, b, s, boots, sent, []);
  }

  /** The next chunk ends at the host's next stop, or earlier in the same round. */
  lemma NextInStep(b: Base, file: Bytes, got: nat, n: nat, waiting: bool)
    requires |file| < WORDS && b.count % 64 == 0
    requires got < n <= |file| && got % 8 == 0 && ChunkEnd(file, got) <= n
    requires if waiting then SyncPoint(file, n) && got / 64 == (n - 1) / 64
             else n < |file| && n % 8 == 0 && got / 64 == n / 64
    ensures
      var next, stop := ChunkEnd(file, got), if waiting then n else NextStop(file, n);
      && ((waiting ==> next < n) ==> forall r :: r in Answer(b, next) ==> EndsUpload(stop, r))
      && (if waiting then next < n ==> next / 64 == (n - 1) / 64 else next / 64 == n / 64)
  {
    hide Answer;
    hide EndsUpload;
    var next, stop := ChunkEnd(file, got), if waiting then n else NextStop(file, n);
    if waiting ==> next < n {
      assert next == got + 8;
      EarlyAnswer(b, next, stop);
    }
  }

  /** In step, a data frame taken leaves exactly its own answer to be read. */
  lemma TakenInStep(cfg: Config, job: Job, b: Base, s: System, boots: seq<Word>)
    requires job.Valid() && ValidDevice(cfg, s.device) && CanMove(s, DeviceTurn)
    requires (s.host.Reading? || s.host.AwaitProgress?) && InStep(cfg, job, b, s, boots)
    ensures
      var r, n, got := Step(cfg, job, s, DeviceTurn), s.host.n, Taken(b, s.device);
      && got < n && got % 8 == 0 && r.host == s.host && |r.queue| == |s.queue| - 1
      && 8 * |s.queue| < n - got + 8
      && (|| (|r.inbox| == 1 && Fatal(r.inbox[0]))
          || (&& Flying(cfg, job, b, r, boots, n, []) && Taken(b, r.device) == ChunkEnd(job.file, got) <= n
              && r.inbox == Answer(b, Taken(b, r.device))))
  {
    hide Counts;
    hide Flying;
    hide Taken;
    var n, got := s.host.n, Taken(b, s.device);
    FlyingFrames(cfg, job, b, s, boots, n);
    DataStep(cfg, job, b, s, boots, n, []);
    var r := Step(cfg, job, s, DeviceTurn);
    assert s.inbox == [] && s.inbox + Answer(b, Taken(b, r.device)) == Answer(b, Taken(b, r.device));
    if Flying(cfg, job, b, r, boots, n, []) {
      FlyingFrames(cfg, job, b, r, boots, n);
    }
  }

  lemma DataStaysPaced(cfg: Config, job: Job, d: Device, s: System)
    requires job.Valid() && ValidDevice(cfg, s.device) && CanMove(s, DeviceTurn)
    requires (s.host.Reading? || s.host.AwaitProgress?) && BaseOf(cfg, job, d).count % 64 == 0
    requires InStep(cfg, job, BaseOf(cfg, job, d), s, BootRequests(d))
    ensures Paced(cfg, job, d, Step(cfg, job, s, DeviceTurn))
  {
    hide Step;
    hide BaseOf;
    hide BootRequests;
    hide Flying;
    hide Taken;
    hide ChunkEnd;
    hide NextStop;
    hide Answer;
    var b, boots := BaseOf(cfg, job, d), BootRequests(d);
    var n, got := s.host.n, Taken(b, s.device);
    TakenInStep(cfg, job, b, s, boots);
    var r := Step(cfg, job, s, DeviceTurn);
    FlyingFrames(cfg, job, b, s, boots, n);
    if s.host.Reading? {
      RoundRoom(job.file, got, n, |s.queue|);
    }
    if !(|r.inbox| == 1 && Fatal(r.inbox[0])) {
      NextInStep(b, job.file, got, n, s.host.AwaitProgress?);
      AtMostOneAnswer(b, Taken(b, r.device));
      assert r.inbox == [] || r.inbox[0] in r.inbox;
    }
  }

  lemma AtMostOneAnswer(b: Base, got: nat)
    ensures |Answer(b, got)| <= 1
  {
  }

  lemma DeviceStaysPaced(cfg: Config, job: Job, d: Device, s: System)
    requires job.Valid() && ValidDevice(cfg, s.device) && CanMove(s, DeviceTurn) && !s.overrun && Counted(cfg, d)
    requires BaseOf(cfg, job, d).count % 64 == 0 && Paced(cfg, job, d, s)
    ensures Paced(cfg, job, d, Step(cfg, job, s, DeviceTurn))
  {
    hide InStep;
    hide OnCourse;
    hide BaseOf;
    hide BootRequests;
    hide DeviceHandle;
    StepKeepsDevice(cfg, job, s, DeviceTurn);
    var r := Step(cfg, job, s, DeviceTurn);
    match s.host
    case Start => NothingSent(cfg, job, d, s);
    case AwaitStart =>
      hide Step;
      StartKeeps(cfg, job, d, s);
      StartHost(cfg, job, s);
    case Reading(n) =>
      if InStep(cfg, job, BaseOf(cfg, job, d), s, BootRequests(d)) {
        DataStaysPaced(cfg, job, d, s);
      } else {
        assert r.inbox[0] == s.inbox[0];
      }
    case AwaitProgress(n) =>
      if InStep(cfg, job, BaseOf(cfg, job, d), s, BootRequests(d)) {
        DataStaysPaced(cfg, job, d, s);
      } else {
        assert r.inbox[0] == s.inbox[0];
      }
    case _ =>
  }

  lemma NothingSent(cfg: Config, job: Job, d: Device, s: System)
    requires job.Valid() && s.host.Start? && OnCourse(cfg, job, d, s)
    ensures s.queue == []
  {
  }

  lemma StartHost(cfg: Config, job: Job, s: System)
    requires job.Valid() && ValidDevice(cfg, s.device)
    ensures
      var r := Step(cfg, job, s, DeviceTurn);
      r.host == s.host && r.overrun == s.overrun
  {
    hide DeviceHandle;
  }

  lemma SameStop(file: Bytes, n: nat)
    requires n < |file| && n % 8 == 0
    ensures
      var m := ChunkEnd(file, n);
      if SyncPoint(file, m) then NextStop(file, n) == m
      else NextStop(file, m) == NextStop(file, n) && m % 64 == n % 64 + 8 && m % 8 == 0 && m < |file|
    ensures n % 64 <= 56
  {
    RoundPlace(n);
    if n + 8 < |file| && n % 64 < 56 {
      RoundPlace(n + 8);
    }
  }

  lemma RoundPlace(n: nat)
    requires n % 8 == 0
    ensures
      var a, c := n / 64, n % 64;
      && n == 64 * a + c && c <= 56 && c % 8 == 0
      && (if c == 56 then (n + 8) % 64 == 0 && n / 64 * 64 + 64 == n + 8
          else (n + 8) / 64 == a && (n + 8) % 64 == c + 8)
  {
    assert n % 64 == n - 64 * (n / 64);
  }

  lemma HearingStaysPaced(cfg: Config, job: Job, d: Device, s: System)
    requires job.Valid() && s.host.AwaitProgress? && CanMove(s, HostTurn) && !s.overrun && ValidDevice(cfg, s.device)
    requires Paced(cfg, job, d, s)
    ensures var r := Step(cfg, job, s, HostTurn); Paced(cfg, job, d, r) && !r.overrun
  {
    hide BaseOf;
    hide BootRequests;
    hide Counts;
    hide DataFrames;
    hide DeviceHandle;
    var b, boots := BaseOf(cfg, job, d), BootRequests(d);
    if InStep(cfg, job, b, s, boots) {
      FlyingFrames(cfg, job, b, s, boots, s.host.n);
      assert s.inbox[1..] == [];
    }
  }

  lemma HostStaysPaced(cfg: Config, job: Job, d: Device, s: System)
    requires job.Valid() && ValidDevice(cfg, s.device) && CanMove(s, HostTurn) && !s.overrun
    requires Paced(cfg, job, d, s)
    ensures var r := Step(cfg, job, s, HostTurn); Paced(cfg, job, d, r) && !r.overrun
  {
    hide BaseOf;
    hide BootRequests;
    hide Counts;
    hide DataFrame;
    var b, boots := BaseOf(cfg, job, d), BootRequests(d);
    var r := Step(cfg, job, s, HostTurn);
    match s.host
    case Start => assert s.queue + [Command(CMD_START, |job.file|)] == [Command(CMD_START, |job.file|)];
    case AwaitStart => assert r.inbox == [] && r == s.(inbox := [], host := Reading(0));
    case Reading(n) =>
      hide OnCourse;
      if InStep(cfg, job, b, s, boots) {
        ReadStaysPaced(cfg, job, d, s);
      } else {
        hide InStep;
        SameStop(job.file, n);
        hide NextStop;
        hide ChunkEnd;
      }
    case AwaitProgress(n) => HearingStaysPaced(cfg, job, d, s);
    case _ => hide OnCourse;
  }

  lemma ReadStaysPaced(cfg: Config, job: Job, d: Device, s: System)
    requires job.Valid() && ValidDevice(cfg, s.device) && CanMove(s, HostTurn) && !s.overrun && s.host.Reading?
    requires InStep(cfg, job, BaseOf(cfg, job, d), s, BootRequests(d))
    ensures var r := Step(cfg, job, s, HostTurn); Paced(cfg, job, d, r) && !r.overrun
  {
    hide BaseOf;
    hide BootRequests;
    hide Flying;
    hide DataFrame;
    hide Taken;
    var b, boots := BaseOf(cfg, job, d), BootRequests(d);
    var n, got := s.host.n, Taken(b, s.device);
    FlyingFrames(cfg, job, b, s, boots, n);
    if n < |job.file| {
      RoundRoom(job.file, got, n, |s.queue|);
      ChunkSent(cfg, job, b, s, boots);
      NextRead(job.file, got, n);
    }
  }

  lemma {:induction false} ExecStaysPaced(cfg: Config, job: Job, d: Device, s: System, schedule: seq<Turn>)
    requires job.Valid() && ValidDevice(cfg, s.device) && !s.overrun && Counted(cfg, d)
    requires BaseOf(cfg, job, d).count % 64 == 0 && Paced(cfg, job, d, s)
    ensures !Exec(cfg, job, s, schedule).overrun
    decreases |schedule|
  {
    hide Paced;
    hide BaseOf;
    if schedule != [] {
      var t, r := schedule[0], Step(cfg, job, s, schedule[0]);
      StepKeepsDevice(cfg, job, s, t);
      if CanMove(s, t) {
        if t == DeviceTurn {
          StartHost(cfg, job, s);
          DeviceStaysPaced(cfg, job, d, s);
        } else {
          HostStaysPaced(cfg, job, d, s);
        }
      }
      hide Step;
      ExecStaysPaced(cfg, job, d, r, schedule[1..]);
    }
  }

  /** The receive queue never overruns, whatever the file and the device's state, unless a transfer is running whose
      count is not a multiple of 64. */
  lemma QueueHolds(cfg: Config, job: Job, d: Device, schedule: seq<Turn>)
    requires job.Valid() && ValidDevice(cfg, d) && Counted(cfg, d)
    requires Busy(d) ==> d.library.written % 64 == 0
    ensures !Exec(cfg, job, Begin(d), schedule).overrun
  {
    ExecStaysPaced(cfg, job, d, Begin(d), schedule);
  }
}
