/** Uploads reported as finished that have not brought the file into the slot: what the exceptions to
    `CanVerdict.SuccessExact` look like when they happen. */
module CanMisled {
  import opened Words
  import opened FlashImage
  import opened CanDevice
  import opened CanUpgrade
  import opened CanPacing
  import opened CanVerdict

  // ---------------------------------------------------------------------------
  // A refused START
  // ---------------------------------------------------------------------------

  /** A refused START leaves an empty transfer of fewer bytes running, whole rounds of 64. */
  ghost predicate Fooling(cfg: Config, job: Job, d: Device) {
    && ValidDevice(cfg, d) && Counted(cfg, d) && Misleading(cfg, job, d) && job.file != []
    && d.library.img.erased && d.library.total <= cfg.slot.capacity
  }

  /** The upload that the device takes part in: the file's first `total` bytes. */
  function Part(job: Job, d: Device): Job
    requires d.OfLibrary? && d.library.total <= |job.file|
  {
    Job(job.file[..d.library.total], job.test)
  }

  /** Past the START the system runs as if only that part were uploaded. */
  ghost predicate Fooled(cfg: Config, job: Job, d: Device, s: System)
    requires job.Valid() && Fooling(cfg, job, d)
  {
    match s.host
    case Start => s == Begin(d)
    case AwaitStart =>
      || s == System(AwaitStart, d, [Command(CMD_START, |job.file|)], [], false)
      || (ValidDevice(cfg, s.device) && Receiving(s.device, [], d.library.total)
          && BootRequests(s.device) == BootRequests(d) && !Refuses(cfg, s.device)
          && s == System(AwaitStart, s.device, [], [Reply(KeyhashError, 0)], false))
    case _ => Inv(cfg, Part(job, d), s, BootRequests(d)) && (s.host.Reading? ==> s.host.n < d.library.total)
  }

  lemma RefusalLeaves(cfg: Config, job: Job, d: Device)
    requires job.Valid() && Fooling(cfg, job, d)
    ensures
      var r := DeviceHandle(cfg, d, Command(CMD_START, |job.file|));
      && ValidDevice(cfg, r.device) && Receiving(r.device, [], d.library.total)
      && BootRequests(r.device) == BootRequests(d) && r.replies == [Reply(KeyhashError, 0)]
      && !Refuses(cfg, r.device)
  {
    hide LittleEndian;
    hide DataWord;
    CommandWords(CMD_START, |job.file|);
  }

  /** Both uploads make the same moves. */
  lemma SameMove(cfg: Config, job: Job, d: Device, s: System, t: Turn)
    requires job.Valid() && Fooling(cfg, job, d) && Fooled(cfg, job, d, s)
    requires !s.host.Start? && !s.host.AwaitStart?
    ensures Step(cfg, job, s, t) == Step(cfg, Part(job, d), s, t)
  {
    hide DeviceHandle;
    hide Receiving;
    hide DataFrames;
    if s.host.Reading? {
      var n, part := s.host.n, Part(job, d).file;
      assert n % 8 == 0;
      assert ChunkEnd(job.file, n) == ChunkEnd(part, n) == n + 8;
      PrefixSlice(job.file, |part|, n, n + 8);
    }
  }

  lemma PrefixSlice(s: Bytes, n: nat, from: nat, to: nat)
    requires from <= to <= n <= |s|
    ensures s[..n][from..to] == s[from..to]
  {
  }

  lemma ReadingOn(cfg: Config, job: Job, d: Device, s: System, t: Turn)
    requires job.Valid() && Fooling(cfg, job, d) && Fooled(cfg, job, d, s)
    requires !s.host.Start? && !s.host.AwaitStart?
    ensures
      var h := Step(cfg, job, s, t).host;
      !h.Start? && !h.AwaitStart? && (h.Reading? ==> h.n < d.library.total)
  {
    hide DeviceHandle;
    hide Receiving;
  }

  lemma FooledStep(cfg: Config, job: Job, d: Device, s: System, t: Turn)
    requires job.Valid() && Fooling(cfg, job, d) && Fooled(cfg, job, d, s)
    ensures Fooled(cfg, job, d, Step(cfg, job, s, t))
  {
    hide Inv;
    hide DeviceHandle;
    if s.host.Start? {
    } else if s.host.AwaitStart? {
      RefusalLeaves(cfg, job, d);
      if CanMove(s, t) && t == HostTurn {
        FooledBegins(cfg, job, d, Step(cfg, job, s, t));
      }
    } else {
      hide Step;
      ReadingOn(cfg, job, d, s, t);
      SameMove(cfg, job, d, s, t);
      StepKeepsInv(cfg, Part(job, d), s, t, BootRequests(d));
    }
  }

  lemma FooledBegins(cfg: Config, job: Job, d: Device, s: System)
    requires job.Valid() && Fooling(cfg, job, d) && ValidDevice(cfg, s.device)
    requires Receiving(s.device, [], d.library.total) && BootRequests(s.device) == BootRequests(d)
    requires !Refuses(cfg, s.device)
    requires s == System(Reading(0), s.device, [], [], false)
    ensures Inv(cfg, Part(job, d), s, BootRequests(d))
  {
    assert job.file[..0] == [];
  }

  lemma {:induction false} FooledExec(cfg: Config, job: Job, d: Device, s: System, schedule: seq<Turn>)
    requires job.Valid() && Fooling(cfg, job, d) && Fooled(cfg, job, d, s) && ValidDevice(cfg, s.device)
    ensures Fooled(cfg, job, d, Exec(cfg, job, s, schedule))
    decreases |schedule|
  {
    hide Fooled;
    hide Step;
    if schedule != [] {
      FooledStep(cfg, job, d, s, schedule[0]);
      StepKeepsDevice(cfg, job, s, schedule[0]);
      FooledExec(cfg, job, d, Step(cfg, job, s, schedule[0]), schedule[1..]);
    }
  }

  lemma FooledMoves(cfg: Config, job: Job, d: Device, s: System)
    requires job.Valid() && Fooling(cfg, job, d) && Fooled(cfg, job, d, s) && !Over(s.host)
    ensures CanMove(s, HostTurn) || CanMove(s, DeviceTurn)
  {
    hide Inv;
    if !s.host.Start? && !s.host.AwaitStart? {
      NoDeadlock(cfg, Part(job, d), s, BootRequests(d));
    }
  }

  lemma {:induction false} FooledFinishes(cfg: Config, job: Job, d: Device, s: System, rounds: seq<seq<Turn>>)
    requires job.Valid() && Fooling(cfg, job, d) && Fooled(cfg, job, d, s) && ValidDevice(cfg, s.device)
    requires Fair(rounds) && Measure(job, s) <= |rounds|
    ensures
      var t := ExecRounds(cfg, job, s, rounds);
      t.host.Finished? && Fooled(cfg, job, d, t)
    decreases |rounds|
  {
    hide Fooled;
    hide Step;
    hide Fooling;
    if Over(s.host) {
      FooledOver(cfg, job, d, s);
      OverStays(cfg, job, s, rounds);
    } else if rounds == [] {
      FooledMoves(cfg, job, d, s);
      assert false;
    } else {
      hide Measure;
      var r := rounds[0];
      assert r in rounds && forall q :: q in rounds[1..] ==> q in rounds;
      FooledMoves(cfg, job, d, s);
      RoundDecreases(cfg, job, s, r);
      FooledExec(cfg, job, d, s, r);
      FooledFinishes(cfg, job, d, Exec(cfg, job, s, r), rounds[1..]);
    }
  }

  lemma FooledOver(cfg: Config, job: Job, d: Device, s: System)
    requires job.Valid() && Fooling(cfg, job, d) && Fooled(cfg, job, d, s) && Over(s.host)
    ensures s.host.Finished? && s.queue == []
  {
    hide Receiving;
  }

  lemma {:induction false} OverStays(cfg: Config, job: Job, s: System, rounds: seq<seq<Turn>>)
    requires ValidDevice(cfg, s.device) && job.Valid() && Over(s.host) && s.queue == []
    ensures ExecRounds(cfg, job, s, rounds) == s
    decreases |rounds|
  {
    if rounds != [] {
      StuckStays(cfg, job, s, rounds[0]);
      OverStays(cfg, job, s, rounds[1..]);
    }
  }

  /** In every fair interleaving the tool reports success, the boot request is made, and the slot shows only the
      part of the file that the old transfer had announced. */
  lemma RefusedUploadSucceeds(cfg: Config, job: Job, d: Device, rounds: seq<seq<Turn>>)
    requires job.Valid() && Fooling(cfg, job, d) && Fair(rounds) && Measure(job, Begin(d)) <= |rounds|
    ensures
      var s := ExecRounds(cfg, job, Begin(d), rounds);
      && OutcomeOf(s.host) == Uploaded
      && Shows(SlotOf(s.device), job.file[..d.library.total]) && d.library.total < |job.file|
      && BootRequests(s.device) == BootRequests(d) + [if job.test then 0 else 1]
  {
    FooledFinishes(cfg, job, d, Begin(d), rounds);
  }

  // ---------------------------------------------------------------------------
  // A frame lost
  // ---------------------------------------------------------------------------

  function Times(t: Turn, k: nat): (r: seq<Turn>)
    ensures |r| == k
  {
    if k == 0 then [] else [t] + Times(t, k - 1)
  }

  lemma {:induction false} ExecConcat(cfg: Config, job: Job, s: System, a: seq<Turn>, b: seq<Turn>)
    requires ValidDevice(cfg, s.device) && job.Valid()
    ensures
      var t := Exec(cfg, job, s, a);
      ValidDevice(cfg, t.device) && Exec(cfg, job, s, a + b) == Exec(cfg, job, t, b)
    decreases |a|
  {
    hide Step;
    if a == [] {
      assert a + b == b;
    } else {
      StepKeepsDevice(cfg, job, s, a[0]);
      assert (a + b)[1..] == a[1..] + b;
      ExecConcat(cfg, job, Step(cfg, job, s, a[0]), a[1..], b);
    }
  }

  /** The host sends a whole chunk that the queue has room for. */
  lemma SendsFrame(cfg: Config, job: Job, s: System, first: nat, n: nat)
    requires job.Valid() && ValidDevice(cfg, s.device) && s.host == Reading(n)
    requires first % 8 == 0 && n % 8 == 0 && first <= n && n + 8 <= |job.file| && n + 8 - first <= 64
    requires s.queue == DataFrames(job.file, first, n)
    ensures
      Step(cfg, job, s, HostTurn) ==
      s.(host := if SyncPoint(job.file, n + 8) then AwaitProgress(n + 8) else Reading(n + 8),
         queue := DataFrames(job.file, first, n + 8))
  {
    FramesInFlight(job.file, first, n);
    OneMoreFrame(job.file, first, n);
    hide DataFrames;
    hide DataFrame;
  }

  /** It sends `k` chunks, no further than to the end of the round. */
  lemma {:induction false} Burst(cfg: Config, job: Job, s: System, first: nat, n: nat, k: nat)
    requires job.Valid() && ValidDevice(cfg, s.device) && s.host == Reading(n)
    requires first % 8 == 0 && n % 8 == 0 && first <= n && 0 < k && n + 8 * k <= |job.file|
    requires n % 64 + 8 * k <= 64 && n + 8 * k - first <= 64 && s.queue == DataFrames(job.file, first, n)
    ensures
      var stop := n + 8 * k;
      Exec(cfg, job, s, Times(HostTurn, k)) ==
      s.(host := if SyncPoint(job.file, stop) then AwaitProgress(stop) else Reading(stop),
         queue := DataFrames(job.file, first, stop))
    decreases k
  {
    hide DataFrames;
    hide Step;
    hide Exec;
    hide Times;
    SendsFrame(cfg, job, s, first, n);
    var r := Step(cfg, job, s, HostTurn);
    FirstTurn(cfg, job, s, HostTurn, k);
    if k > 1 {
      StillInRound(job.file, n, k);
      hide SyncPoint;
      Burst(cfg, job, r, first, n + 8, k - 1);
    }
  }

  lemma StillInRound(file: Bytes, n: nat, k: nat)
    requires n % 8 == 0 && k > 1 && n % 64 + 8 * k <= 64 && n + 8 * k <= |file|
    ensures (n + 8) % 64 == n % 64 + 8 && !SyncPoint(file, n + 8)
  {
    RoundPlace(n);
  }

  lemma FirstTurn(cfg: Config, job: Job, s: System, t: Turn, k: nat)
    requires job.Valid() && ValidDevice(cfg, s.device) && k > 0
    ensures
      var r := Step(cfg, job, s, t);
      && ValidDevice(cfg, r.device)
      && Exec(cfg, job, s, Times(t, k)) == if k == 1 then r else Exec(cfg, job, r, Times(t, k - 1))
  {
    hide Step;
    StepKeepsDevice(cfg, job, s, t);
    var r := Step(cfg, job, s, t);
    assert Times(t, k)[1..] == Times(t, k - 1);
    assert Exec(cfg, job, r, []) == r;
  }

  /** A device that has eight bytes more takes in the next frame. */
  lemma TakesFrame(cfg: Config, job: Job, s: System, had: Bytes, from: nat, end: nat)
    requires job.Valid() && ValidDevice(cfg, s.device) && |had| == 8 && |job.file| <= cfg.slot.capacity
    requires from % 8 == 0 && from + 16 <= |job.file| && from < end <= |job.file| && end % 8 == 0
    requires Receiving(s.device, had + job.file[..from], |job.file|) && s.queue == DataFrames(job.file, from, end)
    ensures
      var r, next := Step(cfg, job, s, DeviceTurn), from + 8;
      && ValidDevice(cfg, r.device) && Receiving(r.device, had + job.file[..next], |job.file|)
      && BootRequests(r.device) == BootRequests(s.device)
      && r == s.(device := r.device, queue := DataFrames(job.file, next, end),
                 inbox := s.inbox + ProgressReply(8 + next, |job.file|))
  {
    hide DeviceHandle;
    hide Receiving;
    hide BootRequests;
    hide ProgressReply;
    var file, next := job.file, from + 8;
    assert s.queue[0] == DataFrame(file, from) && s.queue[1..] == DataFrames(file, next, end);
    assert (had + file[..from]) + file[from..next] == had + file[..next] by {
      assert file[..from] + file[from..next] == file[..next];
    }
    DataAccepted(cfg, s.device, had + file[..from], |file|, file[from..next]);
  }

  /** It takes in `k` frames, up to the end of a round; only the last one is answered. */
  lemma {:induction false} Drain(cfg: Config, job: Job, s: System, had: Bytes, from: nat, k: nat, end: nat)
    requires job.Valid() && ValidDevice(cfg, s.device) && |had| == 8 && |job.file| <= cfg.slot.capacity
    requires from % 8 == 0 && k > 0 && from + 8 * k <= end <= |job.file| && end % 8 == 0
    requires from + 8 * k + 8 <= |job.file| && (from + 8) % 64 + 8 * k == 64
    requires Receiving(s.device, had + job.file[..from], |job.file|) && s.queue == DataFrames(job.file, from, end)
    ensures
      var r, stop := Exec(cfg, job, s, Times(DeviceTurn, k)), from + 8 * k;
      && ValidDevice(cfg, r.device) && Receiving(r.device, had + job.file[..stop], |job.file|)
      && BootRequests(r.device) == BootRequests(s.device)
      && r == s.(device := r.device, queue := DataFrames(job.file, stop, end),
                 inbox := s.inbox + ProgressReply(8 + stop, |job.file|))
    decreases k
  {
    hide Step;
    hide Receiving;
    hide BootRequests;
    hide DataFrames;
    RoundPlace(from + 8);
    TakesFrame(cfg, job, s, had, from, end);
    var r := Step(cfg, job, s, DeviceTurn);
    FirstTurn(cfg, job, s, DeviceTurn, k);
    hide Exec;
    if k > 1 {
      assert ProgressReply(16 + from, |job.file|) == [];
      hide ProgressReply;
      assert r.inbox == s.inbox;
      Drain(cfg, job, r, had, from + 8, k - 1, end);
    }
  }

  /** A library that accepts the START in the middle of a transfer, which has brought eight bytes. */
  ghost predicate EightAhead(cfg: Config, job: Job, d: Device, had: Bytes) {
    && ValidDevice(cfg, d) && Busy(d) && !Refuses(cfg, d)
    && d.library.img.erased && d.library.img.Contents() == had && d.library.written == 8 == |had|
    && |job.file| == 128 <= cfg.slot.capacity
  }

  const FIRST_ROUND: seq<Turn> := [HostTurn, DeviceTurn, HostTurn] + Times(HostTurn, 8)
  const SECOND_ROUND: seq<Turn> := Times(DeviceTurn, 7) + ([HostTurn] + (Times(HostTurn, 7) + [HostTurn]))
  const CLOSING: seq<Turn> := [HostTurn, HostTurn, DeviceTurn, HostTurn]

  /** The START is accepted, but what the library had stays. */
  lemma Resumes(cfg: Config, job: Job, d: Device, had: Bytes) returns (s: System)
    requires job.Valid() && EightAhead(cfg, job, d, had)
    ensures s == Exec(cfg, job, Begin(d), [HostTurn, DeviceTurn, HostTurn]) && ValidDevice(cfg, s.device)
    ensures Receiving(s.device, had + job.file[..0], 128) && BootRequests(s.device) == BootRequests(d)
    ensures s == System(Reading(0), s.device, [], [], false)
  {
    hide DeviceHandle;
    hide BootRequests;
    hide DataFrames;
    StartLeavesBase(cfg, job, d);
    var start := Command(CMD_START, 128);
    var r := DeviceHandle(cfg, d, start);
    var a := System(AwaitStart, d, [start], [], false);
    var b := System(AwaitStart, r.device, [], r.replies, false);
    s := System(Reading(0), r.device, [], [], false);
    assert Step(cfg, job, Begin(d), HostTurn) == a && Step(cfg, job, a, DeviceTurn) == b;
    assert Step(cfg, job, b, HostTurn) == s;
    hide Step;
    assert Exec(cfg, job, b, [HostTurn]) == s by { assert Exec(cfg, job, s, []) == s; }
    assert Exec(cfg, job, a, [DeviceTurn, HostTurn]) == s;
  }

  lemma Opens(cfg: Config, job: Job, d: Device, had: Bytes) returns (s: System)
    requires job.Valid() && EightAhead(cfg, job, d, had)
    ensures s == Exec(cfg, job, Begin(d), FIRST_ROUND) && ValidDevice(cfg, s.device)
    ensures Receiving(s.device, had + job.file[..0], 128) && BootRequests(s.device) == BootRequests(d)
    ensures s == System(AwaitProgress(64), s.device, DataFrames(job.file, 0, 64), [], false)
  {
    hide BootRequests;
    hide Times;
    hide DataFrames;
    hide Exec;
    hide Receiving;
    var opening := [HostTurn, DeviceTurn, HostTurn];
    s := Resumes(cfg, job, d, had);
    NoFrames(job.file, 0);
    Burst(cfg, job, s, 0, 0, 8);
    ExecConcat(cfg, job, Begin(d), opening, Times(HostTurn, 8));
    s := s.(host := AwaitProgress(64), queue := DataFrames(job.file, 0, 64));
  }

  lemma NoFrames(file: Bytes, n: nat)
    ensures DataFrames(file, n, n) == []
  {
  }

  lemma {:induction false} WholeFrames(file: Bytes, from: nat, k: nat)
    requires from + 8 * k <= |file|
    ensures |DataFrames(file, from, from + 8 * k)| == k
    decreases k
  {
    if k > 0 {
      WholeFrames(file, from + 8, k - 1);
    }
  }

  lemma FindsFull(cfg: Config, job: Job, s: System)
    requires job.Valid() && ValidDevice(cfg, s.device) && |job.file| == 128
    requires s.host == Reading(120) && |s.queue| == 8
    ensures Step(cfg, job, s, HostTurn) == s.(host := AwaitProgress(128), overrun := true)
    ensures Exec(cfg, job, s, [HostTurn]) == Step(cfg, job, s, HostTurn)
  {
    hide DeviceHandle;
    var r := Step(cfg, job, s, HostTurn);
    assert Exec(cfg, job, r, []) == r;
  }

  /** The last frame of the next round finds the queue full. */
  lemma LosesFrame(cfg: Config, job: Job, s: System) returns (r: System)
    requires job.Valid() && ValidDevice(cfg, s.device) && |job.file| == 128
    requires s == System(Reading(64), s.device, DataFrames(job.file, 56, 64), [], false)
    ensures r == Exec(cfg, job, s, Times(HostTurn, 7) + [HostTurn])
    ensures r == System(AwaitProgress(128), s.device, DataFrames(job.file, 56, 120), [], true)
  {
    hide DataFrames;
    hide Times;
    hide Exec;
    hide Step;
    Burst(cfg, job, s, 56, 64, 7);
    var a := System(Reading(120), s.device, DataFrames(job.file, 56, 120), [], false);
    WholeFrames(job.file, 56, 8);
    FindsFull(cfg, job, a);
    r := Step(cfg, job, a, HostTurn);
    ExecConcat(cfg, job, s, Times(HostTurn, 7), [HostTurn]);
  }

  /** The answer to the seventh frame lets the host send the next round while the eighth is still waiting. */
  lemma SendsAhead(cfg: Config, job: Job, s: System, had: Bytes) returns (r: System)
    requires job.Valid() && ValidDevice(cfg, s.device) && |had| == 8 && |job.file| == 128 <= cfg.slot.capacity
    requires Receiving(s.device, had + job.file[..0], 128)
    requires s == System(AwaitProgress(64), s.device, DataFrames(job.file, 0, 64), [], false)
    ensures r == Exec(cfg, job, s, SECOND_ROUND) && ValidDevice(cfg, r.device)
    ensures Receiving(r.device, had + job.file[..56], 128) && BootRequests(r.device) == BootRequests(s.device)
    ensures r == System(AwaitProgress(128), r.device, DataFrames(job.file, 56, 120), [], true)
  {
    hide DeviceHandle;
    hide BootRequests;
    hide Receiving;
    hide Times;
    hide DataFrames;
    Drain(cfg, job, s, had, 0, 7, 64);
    var a := Exec(cfg, job, s, Times(DeviceTurn, 7));
    assert a.inbox == [Reply(Offset, 64)];
    var b := Step(cfg, job, a, HostTurn);
    assert b == System(Reading(64), a.device, DataFrames(job.file, 56, 64), [], false);
    hide Step;
    r := LosesFrame(cfg, job, b);
    var burst := Times(HostTurn, 7) + [HostTurn];
    assert Exec(cfg, job, a, [HostTurn] + burst) == r by { assert ([HostTurn] + burst)[1..] == burst; }
    ExecConcat(cfg, job, s, Times(DeviceTurn, 7), [HostTurn] + burst);
  }

  /** The tool reads the success it waits for and has the image confirmed. */
  lemma Concludes(cfg: Config, job: Job, s: System, got: Bytes) returns (r: System)
    requires job.Valid() && ValidDevice(cfg, s.device) && |got| == 128 <= cfg.slot.capacity
    requires Receiving(s.device, got, 128) && s.queue == [] && s.inbox == [Reply(UpdateSuccess, 128)]
    requires s.host == AwaitProgress(128)
    ensures r == Exec(cfg, job, s, CLOSING)
    ensures r.host == Finished(Reply(Confirm, CONFIRMED)) && Shows(SlotOf(r.device), got) && r.overrun == s.overrun
    ensures BootRequests(r.device) == BootRequests(s.device) + [if job.test then 0 else 1]
  {
    hide DeviceHandle;
    hide BootRequests;
    hide Receiving;
    hide Shows;
    hide DataFrame;
    var a := Step(cfg, job, s, HostTurn);
    assert a == s.(host := AskConfirm, inbox := []);
    var b := Step(cfg, job, a, HostTurn);
    assert b == a.(host := AwaitConfirm, queue := [ConfirmFrame(job)]);
    ConfirmAccepted(cfg, s.device, got, 128, if job.test then 0 else 1);
    var c := Step(cfg, job, b, DeviceTurn);
    assert c.inbox == [Reply(Confirm, CONFIRMED)] && c.host == AwaitConfirm;
    r := Step(cfg, job, c, HostTurn);
    hide Step;
    assert Exec(cfg, job, c, [HostTurn]) == r by { assert Exec(cfg, job, r, []) == r; }
    assert Exec(cfg, job, b, [DeviceTurn, HostTurn]) == r;
    assert Exec(cfg, job, a, [HostTurn, DeviceTurn, HostTurn]) == r;
  }

  /** What did arrive makes the count come out right. */
  lemma Closes(cfg: Config, job: Job, s: System, had: Bytes) returns (r: System)
    requires job.Valid() && ValidDevice(cfg, s.device) && |had| == 8 && |job.file| == 128 <= cfg.slot.capacity
    requires Receiving(s.device, had + job.file[..56], 128)
    requires s == System(AwaitProgress(128), s.device, DataFrames(job.file, 56, 120), [], true)
    ensures r == Exec(cfg, job, s, Times(DeviceTurn, 8) + CLOSING) && r.overrun
    ensures r.host == Finished(Reply(Confirm, CONFIRMED)) && Shows(SlotOf(r.device), had + job.file[..120])
    ensures BootRequests(r.device) == BootRequests(s.device) + [if job.test then 0 else 1]
  {
    hide Step;
    hide Exec;
    hide BootRequests;
    hide Receiving;
    hide Times;
    hide Shows;
    Drain(cfg, job, s, had, 56, 8, 120);
    var a := Exec(cfg, job, s, Times(DeviceTurn, 8));
    NoFrames(job.file, 120);
    assert a.inbox == [Reply(UpdateSuccess, 128)];
    r := Concludes(cfg, job, a, had + job.file[..120]);
    ExecConcat(cfg, job, s, Times(DeviceTurn, 8), CLOSING);
  }

  /** A schedule in which a lost frame makes the upload of any 128 bytes succeed with the wrong contents, behind
      eight bytes that the library had already. */
  lemma LostFrameSucceeds(cfg: Config, job: Job, d: Device, had: Bytes)
    requires job.Valid() && EightAhead(cfg, job, d, had)
    ensures
      var s := Exec(cfg, job, Begin(d), FIRST_ROUND + SECOND_ROUND + (Times(DeviceTurn, 8) + CLOSING));
      && s.overrun && OutcomeOf(s.host) == Uploaded
      && Shows(SlotOf(s.device), had + job.file[..120])
      && (Shows(SlotOf(s.device), job.file) ==> had == job.file[..8])
      && BootRequests(s.device) == BootRequests(d) + [if job.test then 0 else 1]
  {
    hide EightAhead;
    hide Receiving;
    hide Times;
    hide DataFrames;
    hide Exec;
    AheadMeans(cfg, job, d, had);
    var a := Opens(cfg, job, d, had);
    var b := SendsAhead(cfg, job, a, had);
    var c := Closes(cfg, job, b, had);
    assert Shows(SlotOf(c.device), job.file) ==> had == job.file[..8] by {
      assert (had + job.file[..120])[..8] == had;
    }
    ExecConcat(cfg, job, Begin(d), FIRST_ROUND, SECOND_ROUND);
    ExecConcat(cfg, job, Begin(d), FIRST_ROUND + SECOND_ROUND, Times(DeviceTurn, 8) + CLOSING);
  }

  lemma AheadMeans(cfg: Config, job: Job, d: Device, had: Bytes)
    requires EightAhead(cfg, job, d, had)
    ensures ValidDevice(cfg, d) && |had| == 8 && |job.file| == 128 <= cfg.slot.capacity
  {
  }
}