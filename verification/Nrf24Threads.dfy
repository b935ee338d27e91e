/** `nrf24_send` and the interrupt bottom half as they are written, with their lock sections and loops, while
    the other thread and the chip may act between any two of their statements. */
module Nrf24Threads {
  import opened Words
  import opened Nrf24Driver

  const MAX_PAYLOAD: nat := 32

  /** `Blocked` when the call still waits for the mutex at the point where nobody moves any more. */
  datatype SendResult = Answer(ret: Ret) | Invalid | Blocked

  predicate Mine(me: Owner, c: Choice) {
    (me == Sender && c.SenderMoves?) || (me == Irq && c.IrqMoves?)
  }

  ghost predicate NoSender(script: seq<seq<Choice>>) {
    forall burst :: burst in script ==> SenderRests(burst)
  }

  lemma ExecSnoc(s: State, schedule: seq<Choice>, c: Choice)
    ensures Exec(s, schedule + [c]) == Step(Exec(s, schedule), c)
  {
    hide Step;
    ExecConcat(s, schedule, [c]);
    var t := Exec(s, schedule);
    assert Exec(t, [c]) == Exec(Step(t, c), []);
  }

  /** What the others leave alone between two statements of the sending thread. */
  predicate SenderUndisturbed(s: State, t: State) {
    && t.sender == s.sender && t.gen == s.gen && t.history == s.history && t.mode == s.mode
    && (SenderHolds(s.sender) ==> t.lock == s.lock && t.txDone == s.txDone && t.lastStatus == s.lastStatus)
    && s.acked <= t.acked && s.failed <= t.failed
  }

  /** What the others leave alone between two statements of the interrupt thread. */
  predicate IrqUndisturbed(s: State, t: State) {
    && t.irq == s.irq && t.status == s.status && t.plen == s.plen && t.handed == s.handed
    && (IrqHolds(s.irq) ==> t.lock == s.lock)
  }

  function Down(k: nat): nat {
    if k > 0 then k - 1 else 0
  }

  lemma OthersLeaveSender(s: State, c: Choice)
    requires Inv(s) && !c.SenderMoves?
    ensures SenderUndisturbed(s, Step(s, c))
  {
    assert Exclusive(s);
    hide Inv;
    if c.IrqMoves? {
      IrqLeavesSender(s, c.plen);
    }
  }

  lemma IrqLeavesSender(s: State, plen: nat)
    requires Exclusive(s)
    ensures SenderUndisturbed(s, IrqStep(s, plen))
  {
  }

  lemma OthersLeaveIrq(s: State, c: Choice)
    requires Inv(s) && !c.IrqMoves?
    ensures IrqUndisturbed(s, Step(s, c))
  {
    assert Exclusive(s);
    hide Inv;
    if c.SenderMoves? {
      SenderLeavesIrq(s, c.give);
    }
  }

  lemma SenderLeavesIrq(s: State, give: bool)
    requires Exclusive(s)
    ensures IrqUndisturbed(s, SenderStep(s, give))
  {
  }

  lemma KeepsWaking(s: State, c: Choice, k: nat)
    requires Inv(s) && !c.IrqMoves?
    ensures !c.SenderMoves? && FinishedWaiting(s) && BeingWoken(s, k) ==>
              FinishedWaiting(Step(s, c)) && BeingWoken(Step(s, c), k)
  {
    if !c.SenderMoves? && FinishedWaiting(s) && BeingWoken(s, k) {
      WakeStep(s, c, k);
    }
  }

  lemma ExecKeepsFromReset(schedule: seq<Choice>)
    ensures Inv(Exec(INIT, schedule))
  {
    InitInv();
    ExecKeepsInv(INIT, schedule);
  }

  /** After `w` steps of the schedule a call waits, and the semaphore is up, or down. */
  predicate Saw(schedule: seq<Choice>, w: nat, up: bool) {
    w <= |schedule| && var s := Exec(INIT, schedule[..w]); s.sender.Waiting? && (s.txDone > 0) == up
  }

  /** A call's looks at the semaphore: all but the last find it down, and the last does so only if it has been
      looked at once more than the timeout has bursts. */
  predicate Waited(schedule: seq<Choice>, looks: seq<nat>, patience: nat, timedOut: bool) {
    && 0 < |looks| <= patience + 1 && (timedOut ==> |looks| == patience + 1)
    && (forall i :: 0 <= i < |looks| - 1 ==> looks[i] <= looks[i + 1] && Saw(schedule, looks[i], false))
    && Saw(schedule, looks[|looks| - 1], !timedOut)
  }

  lemma StillSaw(a: seq<Choice>, b: seq<Choice>, w: nat, up: bool)
    requires a <= b && Saw(a, w, up)
    ensures Saw(b, w, up)
  {
    hide Exec;
    assert b[..w] == a[..w];
  }

  lemma StillWaited(a: seq<Choice>, b: seq<Choice>, looks: seq<nat>, patience: nat, timedOut: bool)
    requires a <= b && Waited(a, looks, patience, timedOut)
    ensures Waited(b, looks, patience, timedOut)
  {
    hide Saw;
    forall i | 0 <= i < |looks| - 1
      ensures Saw(b, looks[i], false)
    {
      StillSaw(a, b, looks[i], false);
    }
    StillSaw(a, b, looks[|looks| - 1], !timedOut);
  }

  class Driver {
    // the chip's registers
    var chip: Chip
    // struct nrf24_data
    var lock: Owner
    var txDoneSem: nat
    var lastStatus: Flags
    var mode: Mode
    // where the threads are, and the interrupt thread's locals
    var senderPc: SenderPc
    var irqPc: IrqPc
    var status: Flags
    var plen: nat
    // what happened so far
    var gen: nat
    var acked: set<nat>
    var failed: set<nat>
    var history: seq<Returned>
    var handed: seq<nat>
    // what everybody else is going to do, one burst between any two statements
    var script: seq<seq<Choice>>
    ghost var trace: seq<Choice>

    ghost function Abs(): State
      reads this
    {
      State(chip, lock, txDoneSem, lastStatus, mode, senderPc, irqPc, status, plen,
            gen, acked, failed, history, handed)
    }

    /** The state is one the transition system reaches, by the steps taken so far. */
    ghost predicate Valid()
      reads this
    {
      Abs() == Exec(INIT, trace)
    }

    constructor (script: seq<seq<Choice>>)
      ensures Valid() && Abs() == INIT && this.script == script
    {
      chip := Chip(CLEAR, None, true, true);
      lock, txDoneSem, lastStatus, mode := Nobody, 0, CLEAR, Prx;
      senderPc, irqPc, status, plen := Idle, Sleep, CLEAR, 0;
      gen, acked, failed, history, handed := 0, {}, {}, [], [];
      this.script, trace := script, [];
    }

    ghost method Took(s: State, c: Choice)
      requires s == Exec(INIT, trace) && Abs() == Step(s, c)
      modifies this`trace
      ensures Valid() && trace == old(trace) + [c]
    {
      hide Step;
      ExecSnoc(INIT, trace, c);
      trace := trace + [c];
    }

    /** A call waits on a finished payload, nobody but the chip and the interrupt thread is going to move, and
        that thread raises the semaphore within `k` of its steps. */
    ghost predicate Waking(k: nat)
      reads this
    {
      NoSender(script) && FinishedWaiting(Abs()) && BeingWoken(Abs(), k)
    }

    method Become(t: State)
      modifies this
      ensures Abs() == t && script == old(script) && trace == old(trace)
    {
      BecomeShared(t);
      senderPc, irqPc, status, plen := t.sender, t.irq, t.status, t.plen;
      gen, acked, failed, history, handed := t.gen, t.acked, t.failed, t.history, t.handed;
    }

    method BecomeShared(t: State)
      modifies this`chip, this`lock, this`txDoneSem, this`lastStatus, this`mode
      ensures chip == t.chip && lock == t.lock && txDoneSem == t.txDone && lastStatus == t.lastStatus && mode == t.mode
    {
      chip, lock, txDoneSem, lastStatus, mode := t.chip, t.lock, t.txDone, t.lastStatus, t.mode;
    }

    /** A step of somebody else. */
    method Foreign(me: Owner, c: Choice, ghost k: nat)
      requires Valid() && !Mine(me, c) && (me == Sender || me == Irq)
      modifies this
      ensures Valid() && script == old(script) && old(trace) <= trace
      ensures me == Sender ==> SenderUndisturbed(old(Abs()), Abs())
      ensures me == Irq ==> IrqUndisturbed(old(Abs()), Abs())
      ensures me == Irq && !c.SenderMoves? && old(Waking(k)) ==> Waking(k)
    {
      hide Step;
      hide Inv;
      hide SenderUndisturbed;
      hide IrqUndisturbed;
      hide Exec;
      ghost var s := Abs();
      ExecKeepsFromReset(trace);
      if me == Sender {
        OthersLeaveSender(s, c);
      } else {
        OthersLeaveIrq(s, c);
        KeepsWaking(s, c, k);
      }
      hide FinishedWaiting;
      hide BeingWoken;
      Become(Step(State(chip, lock, txDoneSem, lastStatus, mode, senderPc, irqPc, status, plen,
                        gen, acked, failed, history, handed), c));
      Took(s, c);
    }

    /** One burst of what the others do; nothing once the script is used up. */
    method Others(me: Owner, ghost k: nat)
      requires Valid() && (me == Sender || me == Irq)
      modifies this
      ensures Valid() && old(trace) <= trace
      ensures script == if old(script) == [] then [] else old(script)[1..]
      ensures old(script) == [] ==> Abs() == old(Abs())
      ensures me == Sender ==> SenderUndisturbed(old(Abs()), Abs())
      ensures me == Irq ==> IrqUndisturbed(old(Abs()), Abs())
      ensures me == Irq && old(Waking(k)) ==> Waking(k)
    {
      hide FinishedWaiting;
      hide BeingWoken;
      hide Exec;
      if script == [] {
        return;
      }
      var burst := script[0];
      ghost var wakes := me == Irq && Waking(k);
      assert burst in script && forall b :: b in script[1..] ==> b in script;
      script := script[1..];
      ghost var rest := script;
      for i := 0 to |burst|
        invariant Valid() && script == rest && old(trace) <= trace
        invariant me == Sender ==> SenderUndisturbed(old(Abs()), Abs())
        invariant me == Irq ==> IrqUndisturbed(old(Abs()), Abs())
        invariant wakes ==> Waking(k)
      {
        assert burst[i] in burst;
        if !Mine(me, burst[i]) {
          Foreign(me, burst[i], k);
        }
      }
    }

    /** Wait for the mutex: it is free on return, unless nobody moves any more. */
    method MutexWait(me: Owner) returns (free: bool)
      requires Valid() && (me == Sender || me == Irq)
      modifies this
      ensures Valid() && |script| <= |old(script)| && old(trace) <= trace
      ensures if free then lock == Nobody else lock != Nobody && script == []
      ensures old(lock) == Nobody ==> free && Abs() == old(Abs()) && script == old(script)
      ensures old(script) == [] ==> Abs() == old(Abs())
      ensures me == Sender ==> SenderUndisturbed(old(Abs()), Abs())
      ensures me == Irq ==> IrqUndisturbed(old(Abs()), Abs())
    {
      hide Exec;
      while lock != Nobody && script != []
        invariant Valid() && |script| <= |old(script)| && old(trace) <= trace
        invariant old(lock) == Nobody || old(script) == [] ==> Abs() == old(Abs()) && script == old(script)
        invariant me == Sender ==> SenderUndisturbed(old(Abs()), Abs())
        invariant me == Irq ==> IrqUndisturbed(old(Abs()), Abs())
        decreases |script|
      {
        Others(me, 0);
      }
      free := lock == Nobody;
    }

    // -------------------------------------------------------------------------
    // The sending thread's accesses to what is shared
    // -------------------------------------------------------------------------

    /** A statement of the sending thread has been executed in state `s`; the others take their turn. */
    method SenderRan(ghost s: State, give: bool)
      requires s == Exec(INIT, trace) && Abs() == SenderStep(s, give)
      modifies this
      ensures Valid() && SenderUndisturbed(old(Abs()), Abs()) && old(trace) <= trace
    {
      hide SenderStep;
      hide SenderUndisturbed;
      Took(s, SenderMoves(give));
      Others(Sender, 0);
    }

    /** `k_mutex_lock` on a mutex that is free. */
    method TakeMutex()
      requires Valid() && lock == Nobody && (senderPc.Enter? || senderPc.Relock?)
      modifies this
      ensures old(trace) <= trace
      ensures Valid() && history == old(history)
      ensures senderPc == if old(senderPc).Enter? then Drain else CeLow(old(senderPc).took)
    {
      ghost var s := Abs();
      lock, senderPc := Sender, if senderPc.Enter? then Drain else CeLow(senderPc.took);
      SenderRan(s, false);
    }

    /** `while (k_sem_take(&d->tx_done_sem, K_NO_WAIT) == 0)`: stale completions are dropped. */
    method DrainSem()
      requires Valid() && senderPc.Drain?
      modifies this
      ensures old(trace) <= trace
      ensures Valid() && senderPc.ModePtx? && history == old(history)
    {
      ghost var s;
      while txDoneSem > 0
        invariant Valid() && senderPc.Drain? && history == old(history) && old(trace) <= trace
        decreases txDoneSem
      {
        s := Abs();
        txDoneSem := txDoneSem - 1;
        SenderRan(s, false);
      }
      s := Abs();
      senderPc := ModePtx;
      SenderRan(s, false);
    }

    /** `set_mode_locked`, to transmit or back to receive. */
    method SetMode(to: Mode)
      requires Valid() && if to == Ptx then senderPc.ModePtx? else to == Prx && senderPc.Restore?
      modifies this
      ensures old(trace) <= trace
      ensures Valid() && history == old(history)
      ensures senderPc == if to == Ptx then FlushStale else Leave(old(senderPc).ret)
    {
      ghost var s := Abs();
      chip, mode := chip.(primRx := to == Prx, ce := to == Prx), to;
      senderPc := if to == Ptx then FlushStale else Leave(senderPc.ret);
      SenderRan(s, false);
    }

    /** `cmd_locked(dev, FLUSH_TX)`. */
    method FlushTx()
      requires Valid() && (senderPc.FlushStale? || senderPc.LateFlush? || senderPc.FailFlush?)
      modifies this
      ensures old(trace) <= trace
      ensures Valid() && history == old(history)
      ensures senderPc == if old(senderPc).FlushStale? then ClearStale
                          else if old(senderPc).LateFlush? then LateClear else Restore(Eio)
    {
      ghost var s := Abs();
      chip := chip.(fifo := None);
      senderPc := if senderPc.FlushStale? then ClearStale else if senderPc.LateFlush? then LateClear else Restore(Eio);
      SenderRan(s, false);
    }

    /** TX_DS and MAX_RT are written to STATUS, which clears them. */
    method ClearTx()
      requires Valid() && (senderPc.ClearStale? || senderPc.LateClear?)
      modifies this
      ensures old(trace) <= trace
      ensures Valid() && history == old(history)
      ensures senderPc == if old(senderPc).ClearStale? then WritePayload else Restore(Eagain)
    {
      ghost var s := Abs();
      chip := chip.(status := chip.status.(txDs := false, maxRt := false));
      senderPc := if senderPc.ClearStale? then WritePayload else Restore(Eagain);
      SenderRan(s, false);
    }

    /** `write_tx_payload_locked`: the next payload goes to the FIFO. */
    method WriteTxPayload()
      requires Valid() && senderPc.WritePayload?
      modifies this
      ensures old(trace) <= trace
      ensures Valid() && senderPc.CeHigh? && history == old(history)
    {
      ghost var s := Abs();
      gen := gen + 1;
      chip, senderPc := chip.(fifo := Some(gen)), CeHigh;
      SenderRan(s, false);
    }

    /** `ce_set`, and which statement follows. */
    method CeSet(on: bool)
      requires Valid() && if on then senderPc.CeHigh? else senderPc.CeLow?
      modifies this
      ensures old(trace) <= trace
      ensures Valid() && history == old(history)
      ensures senderPc == if on then UnlockToWait else if old(senderPc).took then ReadVerdict else LateFlush
    {
      ghost var s := Abs();
      chip := chip.(ce := on);
      senderPc := if on then UnlockToWait else if senderPc.took then ReadVerdict else LateFlush;
      SenderRan(s, false);
    }

    /** `k_mutex_unlock` before the wait. */
    method DropMutex()
      requires Valid() && senderPc.UnlockToWait?
      modifies this
      ensures old(trace) <= trace
      ensures Valid() && senderPc.Waiting? && history == old(history)
    {
      ghost var s := Abs();
      lock, senderPc := Nobody, Waiting;
      SenderRan(s, false);
    }

    lemma SeesNow()
      requires Valid() && senderPc.Waiting?
      ensures Saw(trace, |trace|, txDoneSem > 0)
    {
      assert trace[..|trace|] == trace;
    }

    /** A burst passes while the semaphore is down. */
    method WaitOn(ghost looks: seq<nat>) returns (ghost more: seq<nat>)
      requires Valid() && senderPc.Waiting? && txDoneSem == 0
      requires forall i :: 0 <= i < |looks| ==> looks[i] <= |trace| && Saw(trace, looks[i], false)
      modifies this
      ensures Valid() && senderPc.Waiting? && history == old(history) && old(trace) <= trace
      ensures more == looks + [|old(trace)|]
      ensures forall i :: 0 <= i < |more| ==> more[i] <= |trace| && Saw(trace, more[i], false)
    {
      hide Exec;
      hide Saw;
      SeesNow();
      more := looks + [|trace|];
      assert forall i :: 0 <= i < |more| ==> more[i] <= |trace| && Saw(trace, more[i], false);
      ghost var before := trace;
      Others(Sender, 0);
      forall i | 0 <= i < |more|
        ensures Saw(trace, more[i], false)
      {
        StillSaw(before, trace, more[i], false);
      }
    }

    /** `k_sem_take(&d->tx_done_sem, timeout)`; the timeout is `patience` bursts away. */
    method AwaitDone(patience: nat) returns (took: bool, ghost looks: seq<nat>)
      requires Valid() && senderPc.Waiting?
      modifies this
      ensures old(trace) <= trace && Waited(trace, looks, patience, !took)
      ensures Valid() && senderPc == Relock(took) && history == old(history)
    {
      hide Exec;
      hide Saw;
      var waited := 0;
      looks := [];
      while txDoneSem == 0 && waited < patience
        invariant Valid() && senderPc.Waiting? && history == old(history) && old(trace) <= trace
        invariant |looks| == waited <= patience
        invariant forall i :: 0 <= i < |looks| ==> looks[i] <= |trace| && Saw(trace, looks[i], false)
        invariant forall i :: 0 <= i < |looks| - 1 ==> looks[i] <= looks[i + 1]
      {
        looks := WaitOn(looks);
        waited := waited + 1;
      }
      SeesNow();
      looks := looks + [|trace|];
      took := txDoneSem > 0;
      assert Waited(trace, looks, patience, !took);
      ghost var looked := trace;
      ghost var s := Abs();
      if took {
        txDoneSem := txDoneSem - 1;
      }
      senderPc := Relock(took);
      SenderRan(s, true);
      StillWaited(looked, trace, looks, patience, !took);
    }

    /** Whether the status recorded with the completion says MAX_RT. */
    method ReadMaxRt() returns (maxRt: bool)
      requires Valid() && senderPc.ReadVerdict?
      modifies this
      ensures old(trace) <= trace
      ensures Valid() && senderPc == (if maxRt then FailFlush else Restore(Ok)) && history == old(history)
    {
      ghost var s := Abs();
      maxRt := lastStatus.maxRt;
      senderPc := if maxRt then FailFlush else Restore(Ok);
      SenderRan(s, false);
    }

    /** `k_mutex_unlock` and the return. */
    method Return(ret: Ret)
      requires Valid() && senderPc == Leave(ret)
      modifies this
      ensures old(trace) <= trace && (ret != Eagain ==> (ret == Eio <==> lastStatus.maxRt))
      ensures Valid() && senderPc.Idle? && lock == Nobody && history == old(history) + [Returned(gen, ret)]
    {
      ghost var s := Abs();
      AnswerRecorded(ret);
      history := history + [Returned(gen, ret)];
      lock, senderPc := Nobody, Idle;
      Took(s, SenderMoves(false));
    }

    lemma AnswerRecorded(ret: Ret)
      requires Valid() && senderPc == Leave(ret)
      ensures ret != Eagain ==> (ret == Eio <==> lastStatus.maxRt)
    {
      ExecKeepsFromReset(trace);
      assert VerdictRecorded(Abs());
    }

    // -------------------------------------------------------------------------
    // `nrf24_send`
    // -------------------------------------------------------------------------

    /** From taking the mutex to releasing it with the payload under way. */
    method SendLocked()
      requires Valid() && senderPc.Enter? && lock == Nobody
      modifies this
      ensures old(trace) <= trace
      ensures Valid() && senderPc.Waiting? && history == old(history)
    {
      hide Exec;
      TakeMutex();
      DrainSem();
      SetMode(Ptx);
      FlushTx();
      ClearTx();
      WriteTxPayload();
      CeSet(true);
      DropMutex();
    }

    /** From taking the mutex again to the return. */
    method FinishLocked(took: bool) returns (ret: Ret)
      requires Valid() && senderPc == Relock(took) && lock == Nobody
      modifies this
      ensures old(trace) <= trace
      ensures Valid() && senderPc.Idle? && lock == Nobody && history == old(history) + [Returned(gen, ret)]
      ensures !took <==> ret == Eagain
      ensures ret != Eagain ==> (ret == Eio <==> lastStatus.maxRt)
    {
      hide Exec;
      TakeMutex();
      CeSet(false);
      if !took {
        FlushTx();
        ClearTx();
        ret := Eagain;
      } else {
        var maxRt := ReadMaxRt();
        if maxRt {
          FlushTx();
          ret := Eio;
        } else {
          ret := Ok;
        }
      }
      SetMode(Prx);
      Return(ret);
    }

    method BeginCall()
      requires Valid() && senderPc.Idle?
      modifies this
      ensures old(trace) <= trace
      ensures Valid() && senderPc.Enter? && history == old(history)
    {
      ghost var s := Abs();
      senderPc := Enter;
      SenderRan(s, true);
    }

    /** `nrf24_send`, called in any state the driver can be in and disturbed in any way between any two of its
        statements: it returns 0 only if the chip acknowledged the payload of this very call, and -EIO only if
        the chip gave up on it; -EAGAIN if and only if it has looked at the semaphore to the end of its patience and
        found it down every time, and otherwise -EIO if and only if the status recorded says MAX_RT; it leaves the
        radio receiving with an empty FIFO; and it fails to return only if the mutex stays with the interrupt thread
        for good. */
    method Nrf24Send(len: nat, patience: nat) returns (r: SendResult, ghost looks: seq<nat>)
      requires Valid() && senderPc.Idle?
      modifies this
      ensures Valid()
      ensures r.Invalid? <==> len == 0 || len > 32
      ensures r.Invalid? ==> Abs() == old(Abs())
      ensures r.Answer? ==>
                && senderPc.Idle? && lock == Nobody
                && gen == |old(history)| + 1
                && history == old(history) + [Returned(gen, r.ret)]
                && (r.ret == Ok ==> gen in acked) && (r.ret == Eio ==> gen in failed)
                && mode == Prx && chip.primRx && chip.ce && chip.fifo.None?
      ensures r.Answer? ==>
                && Waited(trace, looks, patience, r.ret == Eagain)
                && (r.ret != Eagain ==> (r.ret == Eio <==> lastStatus.maxRt))
      ensures r.Blocked? ==> lock == Irq && script == []
    {
      hide Exec;
      hide Waited;
      looks := [];
      if len == 0 || len > MAX_PAYLOAD {
        return Invalid, [];
      }
      BeginCall();
      var free := MutexWait(Sender);
      if !free {
        NotMyLock();
        return Blocked, [];
      }
      SendLocked();
      var took;
      took, looks := AwaitDone(patience);
      ghost var woken := trace;
      free := MutexWait(Sender);
      if !free {
        NotMyLock();
        return Blocked, [];
      }
      var ret := FinishLocked(took);
      StillWaited(woken, trace, looks, patience, !took);
      Backed(ret);
      r := Answer(ret);
    }

    lemma NotMyLock()
      requires Valid() && (senderPc.Enter? || senderPc.Relock?)
      ensures lock != Sender
    {
      ExecKeepsFromReset(trace);
    }

    /** What the invariant says of the call that has just returned. */
    lemma Backed(ret: Ret)
      requires Valid() && senderPc.Idle? && history != [] && history[|history| - 1] == Returned(gen, ret)
      ensures gen == |history| && (ret == Ok ==> gen in acked) && (ret == Eio ==> gen in failed)
      ensures mode == Prx && chip.primRx && chip.ce && chip.fifo.None?
    {
      ExecKeepsFromReset(trace);
      var s := Abs();
      assert HistoryJustified(s) && BackToReceive(s);
    }

    // -------------------------------------------------------------------------
    // The interrupt thread's accesses to what is shared
    // -------------------------------------------------------------------------

    /** A statement of the interrupt thread has been executed in state `s`; the others take their turn. */
    method IrqRan(ghost s: State, width: nat, ghost k: nat)
      requires s == Exec(INIT, trace) && Abs() == IrqStep(s, width)
      modifies this
      ensures Valid() && IrqUndisturbed(old(Abs()), Abs())
      ensures script == if old(script) == [] then [] else old(script)[1..]
      ensures old(script) == [] ==> Abs() == old(Abs())
      ensures NoSender(old(script)) && FinishedWaiting(s) && BeingWoken(s, k) ==> Waking(Down(k))
    {
      hide IrqStep;
      hide IrqUndisturbed;
      hide Inv;
      ghost var wakes := NoSender(script) && FinishedWaiting(s) && BeingWoken(s, k);
      ExecKeepsFromReset(trace);
      if wakes {
        WakeStep(s, IrqMoves(width), k);
      }
      hide FinishedWaiting;
      Took(s, IrqMoves(width));
      Others(Irq, Down(k));
    }

    /** The semaphore or the timeout starts a pass. */
    method Wake(ghost k: nat)
      requires Valid() && irqPc.Sleep?
      modifies this
      ensures handed == old(handed)
      ensures Valid() && irqPc.Lock?
      ensures old(Waking(k)) ==> Waking(Down(k))
    {
      ghost var s := Abs();
      irqPc := Lock;
      IrqRan(s, 0, k);
    }

    /** `k_mutex_lock` on a mutex that is free. */
    method IrqTakesMutex(ghost k: nat)
      requires Valid() && lock == Nobody && (irqPc.Lock? || irqPc.RelockRx?)
      modifies this
      ensures handed == old(handed)
      ensures Valid() && irqPc == (if old(irqPc).Lock? then ReadStatus else Reread)
      ensures |script| <= |old(script)| && (old(script) == [] ==> chip == old(chip))
      ensures old(Waking(k)) ==> Waking(Down(k))
    {
      ghost var s := Abs();
      lock, irqPc := Irq, if irqPc.Lock? then ReadStatus else Reread;
      IrqRan(s, 0, k);
    }

    /** `reg_read_locked(dev, L01REG_STATUS, &status)`. */
    method ReadStatusReg(ghost k: nat)
      requires Valid() && (irqPc.ReadStatus? || irqPc.Reread?)
      modifies this
      ensures handed == old(handed)
      ensures Valid() && status == old(chip.status) && |script| <= |old(script)|
      ensures irqPc == if old(irqPc).ReadStatus? && status.Tx() then Record(false) else RxTest
      ensures old(Waking(k)) ==> Waking(Down(k))
    {
      ghost var s := Abs();
      status := chip.status;
      irqPc := if irqPc.ReadStatus? && status.Tx() then Record(false) else RxTest;
      IrqRan(s, 0, k);
    }

    method RecordStatus(ghost k: nat)
      requires Valid() && irqPc.Record?
      modifies this
      ensures handed == old(handed)
      ensures Valid() && irqPc == Observe(old(irqPc).second) && status == old(status) && |script| <= |old(script)|
      ensures old(Waking(k)) ==> Waking(Down(k))
    {
      ghost var s := Abs();
      lastStatus, irqPc := status, Observe(irqPc.second);
      IrqRan(s, 0, k);
    }

    method ReadObserveTx(ghost k: nat)
      requires Valid() && irqPc.Observe?
      modifies this
      ensures handed == old(handed)
      ensures Valid() && irqPc == Clear(old(irqPc).second) && status == old(status) && |script| <= |old(script)|
      ensures old(Waking(k)) ==> Waking(Down(k))
    {
      ghost var s := Abs();
      irqPc := Clear(irqPc.second);
      IrqRan(s, 0, k);
    }

    method ClearDone(ghost k: nat)
      requires Valid() && irqPc.Clear?
      modifies this
      ensures handed == old(handed)
      ensures Valid() && irqPc == Post(old(irqPc).second) && status == old(status) && |script| <= |old(script)|
      ensures old(Waking(k)) ==> Waking(Down(k))
    {
      ghost var s := Abs();
      chip := chip.(status := chip.status.(txDs := false, maxRt := false));
      irqPc := Post(irqPc.second);
      IrqRan(s, 0, k);
    }

    /** `k_sem_give(&d->tx_done_sem)`, a semaphore with limit 1. */
    method SemGive(ghost k: nat)
      requires Valid() && irqPc.Post?
      modifies this
      ensures handed == old(handed)
      ensures Valid() && irqPc == (if old(irqPc).second then Unlock else RxTest)
      ensures status == old(status) && |script| <= |old(script)|
      ensures old(Waking(k)) ==> Waking(Down(k))
    {
      ghost var s := Abs();
      txDoneSem, irqPc := 1, if irqPc.second then Unlock else RxTest;
      IrqRan(s, 0, k);
    }

    /** One of the two completion blocks: record, acknowledge, post. */
    method PostCompletion(second: bool, ghost k: nat)
      requires Valid() && irqPc == Record(second)
      modifies this
      ensures handed == old(handed)
      ensures Valid() && irqPc == (if second then Unlock else RxTest)
      ensures status == old(status) && |script| <= |old(script)|
      ensures old(Waking(k)) ==> Waking(Down(Down(Down(Down(k)))))
    {
      hide Exec;
      hide Waking;
      RecordStatus(k);
      ReadObserveTx(Down(k));
      ClearDone(Down(Down(k)));
      SemGive(Down(Down(Down(k))));
    }

    /** A test of `status`: the loop's condition, or the one behind the loop. */
    method TestStatus()
      requires Valid() && (irqPc.RxTest? || irqPc.EndTest?)
      modifies this
      ensures handed == old(handed)
      ensures Valid() && status == old(status)
      ensures irqPc == if old(irqPc).RxTest? then if status.rxDr then FetchRx else EndTest
                       else if status.Tx() then Record(true) else Unlock
      ensures script == if old(script) == [] then [] else old(script)[1..]
      ensures old(Waking(0)) ==> Waking(0)
    {
      ghost var s := Abs();
      irqPc := if irqPc.RxTest? then if status.rxDr then FetchRx else EndTest
               else if status.Tx() then Record(true) else Unlock;
      IrqRan(s, 0, 0);
    }

    /** `fetch_rx_payload_locked`, with the width the chip reports. */
    method FetchPayload(width: nat)
      requires Valid() && irqPc.FetchRx?
      modifies this
      ensures handed == old(handed)
      ensures Valid() && irqPc.FlushRx? && plen == width && |script| <= |old(script)|
      ensures old(Waking(0)) ==> Waking(0)
    {
      ghost var s := Abs();
      plen, irqPc := width, FlushRx;
      IrqRan(s, width, 0);
    }

    method FlushRxFifo()
      requires Valid() && irqPc.FlushRx?
      modifies this
      ensures handed == old(handed)
      ensures Valid() && irqPc.ClearRx? && plen == old(plen) && |script| <= |old(script)|
      ensures old(Waking(0)) ==> Waking(0)
    {
      ghost var s := Abs();
      irqPc := ClearRx;
      IrqRan(s, 0, 0);
    }

    method ClearRxDr()
      requires Valid() && irqPc.ClearRx?
      modifies this
      ensures handed == old(handed)
      ensures Valid() && irqPc == (if plen > 0 then UnlockRx else Reread) && plen == old(plen)
      ensures |script| <= |old(script)| && (old(script) == [] ==> !chip.status.rxDr)
      ensures old(Waking(0)) ==> Waking(0)
    {
      ghost var s := Abs();
      chip := chip.(status := chip.status.(rxDr := false));
      irqPc := if plen > 0 then UnlockRx else Reread;
      IrqRan(s, 0, 0);
    }

    method DropForDelivery()
      requires Valid() && irqPc.UnlockRx?
      modifies this
      ensures handed == old(handed) && plen == old(plen)
      ensures Valid() && irqPc.Deliver? && |script| <= |old(script)|
      ensures old(script) == [] ==> chip == old(chip)
      ensures old(Waking(0)) ==> Waking(0)
    {
      ghost var s := Abs();
      lock, irqPc := Nobody, Deliver;
      IrqRan(s, 0, 0);
    }

    method HandOn()
      requires Valid() && irqPc.Deliver?
      modifies this
      ensures handed == old(handed) + [old(plen)]
      ensures Valid() && irqPc.RelockRx? && |script| <= |old(script)|
      ensures old(script) == [] ==> chip == old(chip)
      ensures old(Waking(0)) ==> Waking(0)
    {
      ghost var s := Abs();
      handed, irqPc := handed + [plen], RelockRx;
      IrqRan(s, 0, 0);
    }

    /** The mutex is dropped, the frame handed on. */
    method DropAndDeliver()
      requires Valid() && irqPc.UnlockRx?
      modifies this
      ensures handed == old(handed) + [old(plen)]
      ensures Valid() && irqPc.RelockRx? && |script| <= |old(script)|
      ensures old(script) == [] ==> chip == old(chip)
      ensures old(Waking(0)) ==> Waking(0)
    {
      hide Waking;
      hide Exec;
      DropForDelivery();
      HandOn();
    }

    /** `k_mutex_unlock` at the end of the pass. */
    method EndPass()
      requires Valid() && irqPc.Unlock?
      modifies this
      ensures status == old(status)
      ensures handed == old(handed)
      ensures Valid() && irqPc.Sleep?
      ensures old(Waking(0)) ==> Waking(0)
    {
      ghost var s := Abs();
      lock, irqPc := Nobody, Sleep;
      IrqRan(s, 0, 0);
    }

    // -------------------------------------------------------------------------
    // The bottom half
    // -------------------------------------------------------------------------

    /** The body of the receive loop: one frame out of the chip, the mutex dropped to hand it on, STATUS read
        again. */
    method ReceiveOne(width: nat) returns (finished: bool)
      requires Valid() && irqPc.FetchRx?
      modifies this
      ensures finished ==> handed == old(handed) + if width > 0 then [width] else []
      ensures Valid() && |script| <= |old(script)|
      ensures finished ==> irqPc.RxTest? && (old(script) == [] ==> !status.rxDr)
      ensures !finished ==> lock == Sender && script == []
      ensures old(Waking(0)) ==> finished && Waking(0)
    {
      hide Exec;
      FetchPayload(width);
      FlushRxFifo();
      ClearRxDr();
      if plen > 0 {
        DropAndDeliver();
        FreeForIrq();
        finished := MutexWait(Irq);
        if !finished {
          FreeForIrq();
          return;
        }
        IrqTakesMutex(0);
      }
      ReadStatusReg(0);
      finished := true;
    }

    /** Waiting for the mutex, the interrupt thread does not hold it; nor does a sender that waits itself. */
    lemma FreeForIrq()
      requires Valid() && (irqPc.Lock? || irqPc.RelockRx?)
      ensures lock != Irq && (senderPc.Waiting? ==> lock == Nobody)
    {
      ExecKeepsFromReset(trace);
    }

    /** One pass of the bottom half, started in any state the driver can be in and disturbed in any way between
        any two of its statements. If a call waits on a finished payload and only the chip interferes, the
        semaphore is up at the end. The pass goes on receiving until STATUS says that there is no frame left. It fails
        to finish only if the mutex stays with the sender for good. */
    method IrqPass(widths: seq<nat>) returns (finished: bool)
      requires Valid() && irqPc.Sleep?
      modifies this
      ensures Valid()
      ensures finished ==> irqPc.Sleep? && !status.rxDr && old(handed) <= handed
      ensures !finished ==> lock == Sender && script == []
      ensures old(FinishedWaiting(Abs()) && NoSender(script)) ==> finished && txDoneSem == 1
    {
      hide Exec;
      ghost var waits := FinishedWaiting(Abs()) && NoSender(script);
      assert waits ==> Waking(7);
      Wake(7);
      FreeForIrq();
      var free := MutexWait(Irq);
      if !free {
        FreeForIrq();
        return false;
      }
      IrqTakesMutex(6);
      ReadStatusReg(5);
      if status.Tx() {
        PostCompletion(false, 4);
      }
      assert waits ==> Waking(0);
      var received := 0;
      while status.rxDr
        invariant Valid() && irqPc.RxTest? && old(handed) <= handed
        invariant waits ==> Waking(0)
        decreases |script|, if status.rxDr then 1 else 0
      {
        TestStatus();
        free := ReceiveOne(if received < |widths| then widths[received] else 0);
        if !free {
          return false;
        }
        received := received + 1;
      }
      // out of the loop, and the second look at the completion flags
      TestStatus();
      TestStatus();
      if status.Tx() {
        PostCompletion(true, 0);
      }
      EndPass();
      finished := true;
    }
  }
}
