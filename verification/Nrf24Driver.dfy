/** The nRF24L01+ driver's two threads and the chip, interleaved one shared access at a time: the
    thread inside `nrf24_send`, the interrupt bottom half, and the radio raising flags in STATUS. */
module Nrf24Driver {
  import opened Words

  // ---------------------------------------------------------------------------
  // State
  // ---------------------------------------------------------------------------

  /** The interrupt flags of the STATUS register. */
  datatype Flags = Flags(txDs: bool, maxRt: bool, rxDr: bool) {
    predicate Tx() {
      txDs || maxRt
    }
  }

  /** The radio. A payload in the TX FIFO is identified by its generation, the how-many-th payload it
      is. */
  datatype Chip = Chip(status: Flags, fifo: Option<nat>, primRx: bool, ce: bool)

  datatype Owner = Nobody | Sender | Irq

  datatype Mode = Prx | Ptx | Standby

  /** What `nrf24_send` returns: 0, -EIO or -EAGAIN. */
  datatype Ret = Ok | Eio | Eagain

  /** The next thing the sending thread does. */
  datatype SenderPc =
    | Idle
    | Enter
    | Drain
    | ModePtx
    | FlushStale
    | ClearStale
    | WritePayload
    | CeHigh
    | UnlockToWait
    | Waiting
    | Relock(took: bool)
    | CeLow(took: bool)
    | LateFlush
    | LateClear
    | ReadVerdict
    | FailFlush
    | Restore(ret: Ret)
    | Leave(ret: Ret)

  /** The next thing the interrupt thread does; `second` tells its two completion blocks apart. */
  datatype IrqPc =
    | Sleep
    | Lock
    | ReadStatus
    | Record(second: bool)
    | Observe(second: bool)
    | Clear(second: bool)
    | Post(second: bool)
    | RxTest
    | FetchRx
    | FlushRx
    | ClearRx
    | UnlockRx
    | Deliver
    | RelockRx
    | Reread
    | EndTest
    | Unlock

  datatype Returned = Returned(gen: nat, ret: Ret)

  datatype State = State(
    chip: Chip,
    lock: Owner,
    txDone: nat,
    lastStatus: Flags,
    mode: Mode,
    sender: SenderPc,
    irq: IrqPc,
    status: Flags,
    plen: nat,
    gen: nat,
    acked: set<nat>,
    failed: set<nat>,
    history: seq<Returned>,
    handed: seq<nat>)

  const CLEAR: Flags := Flags(false, false, false)

  /** After initialisation: receiving, both threads idle, nothing sent yet. */
  const INIT: State :=
    State(Chip(CLEAR, None, true, true), Nobody, 0, CLEAR, Prx, Idle, Sleep, CLEAR, 0, 0, {}, {}, [], [])

  // ---------------------------------------------------------------------------
  // Steps
  // ---------------------------------------------------------------------------

  function ClearTxFlags(c: Chip): Chip {
    c.(status := c.status.(txDs := false, maxRt := false))
  }

  /** One step of the sending thread; a step that would block leaves the state alone. `give` starts a
      call when idle, and lets the wait time out when waiting. */
  function SenderStep(s: State, give: bool): State {
    match s.sender
    case Idle => if give then s.(sender := Enter) else s
    case Enter => if s.lock == Nobody then s.(lock := Sender, sender := Drain) else s
    case Drain => if s.txDone > 0 then s.(txDone := s.txDone - 1) else s.(sender := ModePtx)
    case ModePtx => s.(chip := s.chip.(primRx := false, ce := false), mode := Ptx, sender := FlushStale)
    case FlushStale => s.(chip := s.chip.(fifo := None), sender := ClearStale)
    case ClearStale => s.(chip := ClearTxFlags(s.chip), sender := WritePayload)
    case WritePayload => s.(chip := s.chip.(fifo := Some(s.gen + 1)), gen := s.gen + 1, sender := CeHigh)
    case CeHigh => s.(chip := s.chip.(ce := true), sender := UnlockToWait)
    case UnlockToWait => s.(lock := Nobody, sender := Waiting)
    case Waiting =>
      if s.txDone > 0 then s.(txDone := s.txDone - 1, sender := Relock(true))
      else if give then s.(sender := Relock(false))
      else s
    case Relock(took) => if s.lock == Nobody then s.(lock := Sender, sender := CeLow(took)) else s
    case CeLow(took) => s.(chip := s.chip.(ce := false), sender := if took then ReadVerdict else LateFlush)
    case LateFlush => s.(chip := s.chip.(fifo := None), sender := LateClear)
    case LateClear => s.(chip := ClearTxFlags(s.chip), sender := Restore(Eagain))
    case ReadVerdict => s.(sender := if s.lastStatus.maxRt then FailFlush else Restore(Ok))
    case FailFlush => s.(chip := s.chip.(fifo := None), sender := Restore(Eio))
    case Restore(ret) => s.(chip := s.chip.(primRx := true, ce := true), mode := Prx, sender := Leave(ret))
    case Leave(ret) => s.(lock := Nobody, sender := Idle, history := s.history + [Returned(s.gen, ret)])
  }

  /** One step of the interrupt thread. It wakes on an edge or after 50 ms, so it may always start a
      pass, whichever edges were lost; `plen` is the width of the frame it fetches, and `handed` collects the widths
      of the frames handed on. */
  function IrqStep(s: State, plen: nat): State {
    match s.irq
    case Sleep => s.(irq := Lock)
    case Lock => if s.lock == Nobody then s.(lock := Irq, irq := ReadStatus) else s
    case ReadStatus => s.(status := s.chip.status, irq := if s.chip.status.Tx() then Record(false) else RxTest)
    case Record(second) => s.(lastStatus := s.status, irq := Observe(second))
    case Observe(second) => s.(irq := Clear(second))
    case Clear(second) => s.(chip := ClearTxFlags(s.chip), irq := Post(second))
    case Post(second) => s.(txDone := 1, irq := if second then Unlock else RxTest)
    case RxTest => s.(irq := if s.status.rxDr then FetchRx else EndTest)
    case FetchRx => s.(plen := plen, irq := FlushRx)
    case FlushRx => s.(irq := ClearRx)
    case ClearRx =>
      s.(chip := s.chip.(status := s.chip.status.(rxDr := false)), irq := if s.plen > 0 then UnlockRx else Reread)
    case UnlockRx => s.(lock := Nobody, irq := Deliver)
    case Deliver => s.(handed := s.handed + [s.plen], irq := RelockRx)
    case RelockRx => if s.lock == Nobody then s.(lock := Irq, irq := Reread) else s
    case Reread => s.(status := s.chip.status, irq := RxTest)
    case EndTest => s.(irq := if s.status.Tx() then Record(true) else Unlock)
    case Unlock => s.(lock := Nobody, irq := Sleep)
  }

  /** The radio finishes the payload in its FIFO, whenever it likes: acknowledged, which empties the FIFO,
      or out of retransmissions, which leaves the payload there (and it may be tried again). */
  function Complete(s: State, ack: bool): State {
    if s.chip.fifo.None? then s
    else if ack then
      s.(chip := s.chip.(status := s.chip.status.(txDs := true), fifo := None), acked := s.acked + {s.chip.fifo.value})
    else
      s.(chip := s.chip.(status := s.chip.status.(maxRt := true)), failed := s.failed + {s.chip.fifo.value})
  }

  function ReceiveFrame(s: State): State {
    s.(chip := s.chip.(status := s.chip.status.(rxDr := true)))
  }

  datatype Choice =
    | SenderMoves(give: bool)
    | IrqMoves(plen: nat)
    | ChipCompletes(ack: bool)
    | ChipReceives

  function Step(s: State, c: Choice): State {
    match c
    case SenderMoves(give) => SenderStep(s, give)
    case IrqMoves(plen) => IrqStep(s, plen)
    case ChipCompletes(ack) => Complete(s, ack)
    case ChipReceives => ReceiveFrame(s)
  }

  /** Where a schedule leads: every interleaving of the two threads and the chip is one. */
  function Exec(s: State, schedule: seq<Choice>): State
    decreases |schedule|
  {
    if schedule == [] then s else Exec(Step(s, schedule[0]), schedule[1..])
  }

  // ---------------------------------------------------------------------------
  // The invariant
  // ---------------------------------------------------------------------------

  predicate SenderHolds(pc: SenderPc) {
    !(pc.Idle? || pc.Enter? || pc.Waiting? || pc.Relock?)
  }

  predicate IrqHolds(pc: IrqPc) {
    !(pc.Sleep? || pc.Lock? || pc.Deliver? || pc.RelockRx?)
  }

  /** The mutex does its job. */
  predicate Exclusive(s: State) {
    && (s.lock == Sender <==> SenderHolds(s.sender))
    && (s.lock == Irq <==> IrqHolds(s.irq))
  }

  /** Flags that speak of the current payload. */
  predicate About(f: Flags, s: State) {
    && (f.txDs ==> s.gen in s.acked)
    && (f.maxRt ==> s.gen in s.failed)
  }

  /** Only the payload written last, and not yet acknowledged, is ever in the FIFO. */
  predicate FifoCurrent(s: State) {
    && (s.chip.fifo.Some? ==> s.chip.fifo.value == s.gen && s.gen !in s.acked)
    && (s.sender.ClearStale? || s.sender.WritePayload? || s.sender.LateClear? ==> s.chip.fifo.None?)
  }

  /** What STATUS shows always concerns the payload written last. */
  predicate FlagsCurrent(s: State) {
    && About(s.chip.status, s)
    && (s.sender.WritePayload? ==> !s.chip.status.Tx())
  }

  /** No payload is finished before it is written. */
  predicate LogsBounded(s: State) {
    && (forall g :: g in s.acked ==> g <= s.gen)
    && (forall g :: g in s.failed ==> g <= s.gen)
  }

  predicate IrqPosting(pc: IrqPc) {
    pc.Record? || pc.Observe? || pc.Clear? || pc.Post?
  }

  /** The status the interrupt thread goes by was read in the lock section it is in. */
  predicate StatusFresh(s: State) {
    && (IrqHolds(s.irq) && !s.irq.ReadStatus? && !s.irq.Reread? ==> About(s.status, s))
    && (IrqPosting(s.irq) ==> s.status.Tx())
    && (s.irq.Observe? || s.irq.Clear? || s.irq.Post? ==> s.lastStatus == s.status)
  }

  /** From draining the semaphore to releasing the lock, nobody else can post. */
  predicate Preparing(pc: SenderPc) {
    pc.ModePtx? || pc.FlushStale? || pc.ClearStale? || pc.WritePayload? || pc.CeHigh? || pc.UnlockToWait?
  }

  predicate Verdict(s: State) {
    About(s.lastStatus, s) && s.lastStatus.Tx()
  }

  predicate TookCompletion(pc: SenderPc) {
    pc == Relock(true) || pc == CeLow(true) || pc.ReadVerdict?
  }

  /** A completion the sender can take, or has taken, is one of the payload it is waiting for. */
  predicate PostsCurrent(s: State) {
    && s.txDone <= 1
    && (Preparing(s.sender) ==> s.txDone == 0)
    && (s.sender.Waiting? && s.txDone == 1 ==> Verdict(s))
    && (TookCompletion(s.sender) ==> Verdict(s))
  }

  predicate Justified(s: State, gen: nat, ret: Ret) {
    && (ret == Ok ==> gen in s.acked)
    && (ret == Eio ==> gen in s.failed)
  }

  /** The verdict the current call has reached is backed by the chip. */
  predicate VerdictJustified(s: State) {
    && (s.sender.FailFlush? ==> s.gen in s.failed)
    && (s.sender.Restore? || s.sender.Leave? ==> Justified(s, s.gen, s.sender.ret) && s.chip.fifo.None?)
  }

  /** So was that of every call before it, and the i-th call wrote the i-th payload. */
  predicate HistoryJustified(s: State) {
    && s.gen == |s.history| + (if Armed(s.sender) then 1 else 0)
    && forall i :: 0 <= i < |s.history| ==>
         s.history[i].gen == i + 1 && Justified(s, i + 1, s.history[i].ret)
  }

  /** The call's payload has been written and it has not returned yet. */
  predicate Armed(pc: SenderPc) {
    !(pc.Idle? || pc.Enter? || pc.Drain? || pc.ModePtx? || pc.FlushStale? || pc.ClearStale? || pc.WritePayload?)
  }

  /** Between calls the radio listens and has nothing left to send. */
  predicate BackToReceive(s: State) {
    s.sender.Idle? || s.sender.Enter? || s.sender.Drain? || s.sender.ModePtx? || s.sender.Leave? ==>
      s.mode == Prx && s.chip.primRx && s.chip.ce && s.chip.fifo.None?
  }

  /** A completion is never lost: while the sender waits, once the chip has finished its payload the
      flag is still in STATUS, or the semaphore is up, or the interrupt thread has cleared the flag and
      is about to raise the semaphore. */
  predicate CompletionPending(s: State) {
    (s.sender.CeHigh? || s.sender.UnlockToWait? || s.sender.Waiting?) && (s.gen in s.acked || s.gen in s.failed) ==>
      s.chip.status.Tx() || s.txDone == 1 || s.irq.Post?
  }

  /** The answer a call has settled on follows the status recorded with its completion. */
  predicate VerdictRecorded(s: State) {
    && (s.sender.FailFlush? ==> s.lastStatus.maxRt)
    && ((s.sender.Restore? || s.sender.Leave?) && s.sender.ret != Eagain ==>
          (s.sender.ret == Eio <==> s.lastStatus.maxRt))
  }

  /** From having written its payload until it lowers CE again, a call keeps the radio transmitting: the payload is
      in the FIFO until it is acknowledged, and from raising CE on the chip is at it. */
  predicate OnAir(s: State) {
    && ((Preparing(s.sender) && !s.sender.ModePtx?) || s.sender.Waiting? || s.sender.Relock? || s.sender.CeLow? ==>
          s.mode == Ptx && !s.chip.primRx)
    && (s.sender.CeHigh? || s.sender.UnlockToWait? || s.sender.Waiting? || s.sender.Relock? || s.sender.CeLow? ==>
          s.chip.fifo == Some(s.gen) || s.gen in s.acked)
    && (s.sender.UnlockToWait? || s.sender.Waiting? || s.sender.Relock? || s.sender.CeLow? ==> s.chip.ce)
  }

  ghost predicate Inv(s: State) {
    && Exclusive(s) && FifoCurrent(s) && FlagsCurrent(s) && LogsBounded(s) && StatusFresh(s) && PostsCurrent(s)
    && VerdictJustified(s) && HistoryJustified(s) && BackToReceive(s) && CompletionPending(s)
    && VerdictRecorded(s) && OnAir(s)
  }

  lemma InitInv()
    ensures Inv(INIT)
  {
  }

  lemma SenderExclusive(s: State, give: bool)
    requires Exclusive(s)
    ensures Exclusive(SenderStep(s, give))
  {
  }

  lemma SenderFifoCurrent(s: State, give: bool)
    requires FifoCurrent(s) && LogsBounded(s)
    ensures FifoCurrent(SenderStep(s, give))
  {
  }

  lemma SenderFlagsCurrent(s: State, give: bool)
    requires FlagsCurrent(s) && FifoCurrent(s)
    ensures FlagsCurrent(SenderStep(s, give))
  {
  }

  lemma SenderLogsBounded(s: State, give: bool)
    requires LogsBounded(s)
    ensures LogsBounded(SenderStep(s, give))
  {
  }

  lemma SenderStatusFresh(s: State, give: bool)
    requires Exclusive(s) && StatusFresh(s)
    ensures StatusFresh(SenderStep(s, give))
  {
  }

  lemma SenderPostsCurrent(s: State, give: bool)
    requires PostsCurrent(s)
    ensures PostsCurrent(SenderStep(s, give))
  {
  }

  lemma SenderVerdictJustified(s: State, give: bool)
    requires PostsCurrent(s) && FifoCurrent(s) && VerdictJustified(s)
    ensures VerdictJustified(SenderStep(s, give))
  {
  }

  lemma SenderHistoryJustified(s: State, give: bool)
    requires VerdictJustified(s) && HistoryJustified(s)
    ensures HistoryJustified(SenderStep(s, give))
  {
  }

  lemma SenderBackToReceive(s: State, give: bool)
    requires BackToReceive(s) && VerdictJustified(s)
    ensures BackToReceive(SenderStep(s, give))
  {
  }

  lemma SenderCompletionPending(s: State, give: bool)
    requires CompletionPending(s) && LogsBounded(s)
    ensures CompletionPending(SenderStep(s, give))
  {
  }

  lemma SenderVerdictRecorded(s: State, give: bool)
    requires VerdictRecorded(s)
    ensures VerdictRecorded(SenderStep(s, give))
  {
  }

  lemma SenderOnAir(s: State, give: bool)
    requires OnAir(s)
    ensures OnAir(SenderStep(s, give))
  {
  }

  lemma IrqExclusive(s: State, plen: nat)
    requires Exclusive(s)
    ensures Exclusive(IrqStep(s, plen))
  {
  }

  lemma IrqChipCurrent(s: State, plen: nat)
    requires FifoCurrent(s) && FlagsCurrent(s)
    ensures FifoCurrent(IrqStep(s, plen)) && FlagsCurrent(IrqStep(s, plen))
  {
  }

  lemma IrqStatusFresh(s: State, plen: nat)
    requires Exclusive(s) && StatusFresh(s) && FlagsCurrent(s)
    ensures StatusFresh(IrqStep(s, plen))
  {
  }

  lemma IrqPostsCurrent(s: State, plen: nat)
    requires PostsCurrent(s) && StatusFresh(s) && Exclusive(s)
    ensures PostsCurrent(IrqStep(s, plen))
  {
  }

  lemma IrqCompletionPending(s: State, plen: nat)
    requires CompletionPending(s)
    ensures CompletionPending(IrqStep(s, plen))
  {
  }

  lemma IrqLeavesSenderAlone(s: State, plen: nat)
    requires LogsBounded(s) && VerdictJustified(s) && HistoryJustified(s) && BackToReceive(s)
    requires Exclusive(s) && VerdictRecorded(s) && OnAir(s)
    ensures
      var t := IrqStep(s, plen);
      && LogsBounded(t) && VerdictJustified(t) && HistoryJustified(t) && BackToReceive(t)
      && VerdictRecorded(t) && OnAir(t)
  {
  }

  lemma CompleteKeepsInv(s: State, ack: bool)
    requires Inv(s)
    ensures Inv(Complete(s, ack))
  {
  }

  lemma ReceiveKeepsInv(s: State)
    requires Inv(s)
    ensures Inv(ReceiveFrame(s))
  {
  }

  /** Every single step of any of the three keeps the invariant. */
  lemma StepKeepsInv(s: State, c: Choice)
    requires Inv(s)
    ensures Inv(Step(s, c))
  {
    hide SenderStep;
    hide IrqStep;
    match c
    case SenderMoves(give) =>
      SenderExclusive(s, give);
      SenderFifoCurrent(s, give);
      SenderFlagsCurrent(s, give);
      SenderLogsBounded(s, give);
      SenderStatusFresh(s, give);
      SenderPostsCurrent(s, give);
      SenderVerdictJustified(s, give);
      SenderHistoryJustified(s, give);
      SenderBackToReceive(s, give);
      SenderCompletionPending(s, give);
      SenderVerdictRecorded(s, give);
      SenderOnAir(s, give);
    case IrqMoves(plen) =>
      IrqExclusive(s, plen);
      IrqChipCurrent(s, plen);
      IrqStatusFresh(s, plen);
      IrqPostsCurrent(s, plen);
      IrqCompletionPending(s, plen);
      IrqLeavesSenderAlone(s, plen);
    case ChipCompletes(ack) => CompleteKeepsInv(s, ack);
    case ChipReceives => ReceiveKeepsInv(s);
  }

  lemma {:induction false} ExecKeepsInv(s: State, schedule: seq<Choice>)
    requires Inv(s)
    ensures Inv(Exec(s, schedule))
    decreases |schedule|
  {
    if schedule != [] {
      StepKeepsInv(s, schedule[0]);
      ExecKeepsInv(Step(s, schedule[0]), schedule[1..]);
    }
  }

  // ---------------------------------------------------------------------------
  // What every interleaving guarantees
  // ---------------------------------------------------------------------------

  /** In every interleaving, a call that returned 0 had its own payload acknowledged, and one that
      returned -EIO had its own payload given up on: completions of other calls, late ones and
      double posts are never taken for it. */
  lemma SendAnswersForItsPayload(schedule: seq<Choice>)
    ensures
      var s := Exec(INIT, schedule);
      forall i :: 0 <= i < |s.history| ==>
        && s.history[i].gen == i + 1
        && (s.history[i].ret == Ok ==> i + 1 in s.acked)
        && (s.history[i].ret == Eio ==> i + 1 in s.failed)
  {
    InitInv();
    ExecKeepsInv(INIT, schedule);
  }

  /** In every interleaving, while a call waits and its payload is finished, the completion is still
      on its way, and until it is acknowledged it is with the radio, which is transmitting; and between calls the
      radio is back in receive mode with nothing left to send. */
  lemma CompletionNeverLost(schedule: seq<Choice>)
    ensures
      var s := Exec(INIT, schedule);
      && (s.sender.Waiting? && (s.gen in s.acked || s.gen in s.failed) ==>
            s.chip.status.Tx() || s.txDone == 1 || s.irq.Post?)
      && (s.sender.Waiting? ==>
            s.mode == Ptx && !s.chip.primRx && s.chip.ce && (s.chip.fifo == Some(s.gen) || s.gen in s.acked))
      && (s.sender.Idle? ==> s.mode == Prx && s.chip.primRx && s.chip.ce && s.chip.fifo.None?)
  {
    InitInv();
    ExecKeepsInv(INIT, schedule);
  }

  /** How far a pass of the interrupt thread has come towards raising the semaphore. */
  function Distance(pc: IrqPc): Option<nat> {
    match pc
    case Sleep => Some(7)
    case Lock => Some(6)
    case ReadStatus => Some(5)
    case Record(second) => Some(4)
    case Observe(second) => Some(3)
    case Clear(second) => Some(2)
    case Post(second) => Some(1)
    case _ => None
  }

  /** A waiting sender whose payload is finished is being woken: the semaphore is up, or the pass is
      on its way to raising it. */
  predicate BeingWoken(s: State, steps: nat) {
    s.txDone == 1 || (Distance(s.irq).Some? && Distance(s.irq).value <= steps)
  }

  predicate FinishedWaiting(s: State) {
    s.sender.Waiting? && (s.gen in s.acked || s.gen in s.failed)
  }

  function IrqSteps(schedule: seq<Choice>): nat {
    if schedule == [] then 0
    else (if schedule[0].IrqMoves? then 1 else 0) + IrqSteps(schedule[1..])
  }

  predicate SenderRests(schedule: seq<Choice>) {
    forall c :: c in schedule ==> !c.SenderMoves?
  }

  lemma WakeStep(s: State, c: Choice, steps: nat)
    requires Inv(s) && FinishedWaiting(s) && BeingWoken(s, steps) && !c.SenderMoves?
    requires steps == 0 ==> s.txDone == 1
    ensures FinishedWaiting(Step(s, c))
    ensures BeingWoken(Step(s, c), if c.IrqMoves? && steps > 0 then steps - 1 else steps)
  {
  }

  lemma {:induction false} WakesWithin(s: State, schedule: seq<Choice>, steps: nat)
    requires Inv(s) && FinishedWaiting(s) && BeingWoken(s, steps) && SenderRests(schedule)
    requires steps <= IrqSteps(schedule) && (steps == 0 ==> s.txDone == 1)
    ensures Exec(s, schedule).txDone == 1 && Exec(s, schedule).sender.Waiting?
    decreases |schedule|
  {
    if schedule != [] {
      var c := schedule[0];
      assert c in schedule && forall d :: d in schedule[1..] ==> d in schedule;
      WakeStep(s, c, steps);
      StepKeepsInv(s, c);
      WakesWithin(Step(s, c), schedule[1..], if c.IrqMoves? && steps > 0 then steps - 1 else steps);
    }
  }

  /** From any reachable state in which a call waits on a finished payload, one more pass of the
      interrupt thread wakes it, whatever the chip does meanwhile and however the edges were lost:
      after seven steps from the start of the pass the semaphore is up. */
  lemma PassWakesSender(before: seq<Choice>, pass: seq<Choice>)
    requires FinishedWaiting(Exec(INIT, before)) && Exec(INIT, before).irq.Sleep?
    requires SenderRests(pass) && IrqSteps(pass) >= 7
    ensures Exec(Exec(INIT, before), pass).txDone == 1
  {
    InitInv();
    ExecKeepsInv(INIT, before);
    WakesWithin(Exec(INIT, before), pass, 7);
  }

  // ---------------------------------------------------------------------------
  // Which answer a call gives
  // ---------------------------------------------------------------------------

  /** A call behind its wait, which has found the semaphore up (`took`) or timed out. */
  predicate Resolving(pc: SenderPc, took: bool) {
    match pc
    case Relock(t) => t == took
    case CeLow(t) => t == took
    case ReadVerdict => took
    case FailFlush => took
    case LateFlush => !took
    case LateClear => !took
    case Restore(ret) => (ret == Eagain) == !took
    case Leave(ret) => (ret == Eagain) == !took
    case _ => false
  }

  /** The call that was the next to return in `s`, where `n` had, has returned -EAGAIN exactly if it timed out. */
  predicate Resolved(s: State, n: nat, took: bool) {
    if |s.history| <= n then |s.history| == n && Resolving(s.sender, took)
    else (s.history[n].ret == Eagain) == !took
  }

  lemma ResolvedStep(s: State, c: Choice, n: nat, took: bool)
    requires Resolved(s, n, took)
    ensures Resolved(Step(s, c), n, took)
  {
    hide IrqStep;
    if c.IrqMoves? {
      IrqKeepsHistory(s, c.plen);
    }
  }

  lemma IrqKeepsHistory(s: State, plen: nat)
    ensures var t := IrqStep(s, plen); t.history == s.history && t.sender == s.sender
  {
  }

  lemma {:induction false} ResolvedRun(s: State, schedule: seq<Choice>, n: nat, took: bool)
    requires Resolved(s, n, took)
    ensures Resolved(Exec(s, schedule), n, took)
    decreases |schedule|
  {
    hide Step;
    hide Resolved;
    if schedule != [] {
      ResolvedStep(s, schedule[0], n, took);
      ResolvedRun(Step(s, schedule[0]), schedule[1..], n, took);
    }
  }

  /** In every interleaving, a call that ends its wait, because the semaphore is up or the timeout (`give`) is over,
      returns -EAGAIN if and only if the semaphore was down then. */
  lemma TimesOutExact(before: seq<Choice>, give: bool, after: seq<Choice>)
    requires var s := Exec(INIT, before); s.sender.Waiting? && (s.txDone > 0 || give)
    ensures
      var s := Exec(INIT, before);
      var t := Exec(s, [SenderMoves(give)] + after);
      |t.history| > |s.history| ==> (t.history[|s.history|].ret == Eagain <==> s.txDone == 0)
  {
    var s := Exec(INIT, before);
    var schedule := [SenderMoves(give)] + after;
    assert schedule[1..] == after;
    ResolvedRun(Step(s, schedule[0]), after, |s.history|, s.txDone > 0);
  }

  /** In every interleaving, a call that did not time out returns -EIO if and only if the status recorded last has
      MAX_RT set. */
  lemma AnswerFollowsStatus(schedule: seq<Choice>, give: bool)
    ensures
      var s := Exec(INIT, schedule);
      var t := Step(s, SenderMoves(give));
      |t.history| > |s.history| ==>
        var ret := t.history[|s.history|].ret;
        ret != Eagain ==> (ret == Eio <==> s.lastStatus.maxRt)
  {
    InitInv();
    ExecKeepsInv(INIT, schedule);
  }

  /** End to end. A call waits on a payload that the chip has finished, and a pass of the interrupt thread runs before
      the timeout: when the call returns, it returns 0 if MAX_RT has never been raised for its payload, and -EIO if its
      payload has never been acknowledged. */
  lemma FinishedCallAnswers(before: seq<Choice>, pass: seq<Choice>, give: bool, after: seq<Choice>)
    requires
      var s := Exec(INIT, before);
      s.sender.Waiting? && (s.gen in s.acked || s.gen in s.failed) && s.irq.Sleep?
    requires SenderRests(pass) && IrqSteps(pass) >= 7
    ensures
      var s := Exec(INIT, before);
      var t := Exec(Exec(s, pass), [SenderMoves(give)] + after);
      |t.history| > |s.history| ==>
        var ret := t.history[|s.history|].ret;
        && (s.gen !in t.failed ==> ret == Ok)
        && (s.gen !in t.acked ==> ret == Eio)
  {
    var s := Exec(INIT, before);
    InitInv();
    ExecKeepsInv(INIT, before);
    WakesWithin(s, pass, 7);
    RestKeepsHistory(s, pass);
    ExecConcat(INIT, before, pass);
    TimesOutExact(before + pass, give, after);
    var more := [SenderMoves(give)] + after;
    ExecConcat(INIT, before + pass, more);
    SendAnswersForItsPayload(before + pass + more);
  }

  lemma {:induction false} ExecConcat(s: State, a: seq<Choice>, b: seq<Choice>)
    ensures Exec(s, a + b) == Exec(Exec(s, a), b)
    decreases |a|
  {
    hide Step;
    if a == [] {
      assert a + b == b;
    } else {
      assert (a + b)[1..] == a[1..] + b;
      ExecConcat(Step(s, a[0]), a[1..], b);
    }
  }

  lemma {:induction false} RestKeepsHistory(s: State, schedule: seq<Choice>)
    requires SenderRests(schedule)
    ensures Exec(s, schedule).history == s.history && Exec(s, schedule).sender == s.sender
    decreases |schedule|
  {
    hide IrqStep;
    if schedule != [] {
      var c := schedule[0];
      assert c in schedule && forall d :: d in schedule[1..] ==> d in schedule;
      if c.IrqMoves? {
        IrqKeepsHistory(s, c.plen);
      }
      RestKeepsHistory(Step(s, c), schedule[1..]);
    }
  }

  // ---------------------------------------------------------------------------
  // Received frames
  // ---------------------------------------------------------------------------

  /** As many steps of the interrupt thread, fetching a frame of width `plen` whenever it fetches one. */
  function Alone(n: nat, plen: nat): (r: seq<Choice>)
    ensures |r| == n
  {
    if n == 0 then [] else [IrqMoves(plen)] + Alone(n - 1, plen)
  }

  lemma OneAlone(s: State, n: nat, plen: nat) returns (t: State)
    requires n > 0
    ensures t == IrqStep(s, plen) && Exec(s, Alone(n, plen)) == Exec(t, Alone(n - 1, plen))
  {
    hide IrqStep;
    t := IrqStep(s, plen);
    var a := Alone(n, plen);
    assert a[0] == IrqMoves(plen) && a[1..] == Alone(n - 1, plen);
  }

  /** From waking up to the receive loop, with a completion posted or not. */
  lemma ReachesLoop(s: State, plen: nat, n: nat) returns (t: State)
    requires s.irq.Sleep? && s.lock == Nobody && n >= 3 + (if s.chip.status.Tx() then 4 else 0)
    ensures t.irq.RxTest? && t.lock == Irq && t.handed == s.handed
    ensures t.status.rxDr == t.chip.status.rxDr == s.chip.status.rxDr && !t.chip.status.Tx()
    ensures s.chip.status.Tx() ==> t.txDone == 1
    ensures Exec(s, Alone(n, plen)) == Exec(t, Alone(n - 3 - (if s.chip.status.Tx() then 4 else 0), plen))
  {
    hide Exec;
    t := OneAlone(s, n, plen);
    t := OneAlone(t, n - 1, plen);
    t := OneAlone(t, n - 2, plen);
    if s.chip.status.Tx() {
      t := OneAlone(t, n - 3, plen);
      t := OneAlone(t, n - 4, plen);
      t := OneAlone(t, n - 5, plen);
      t := OneAlone(t, n - 6, plen);
    }
  }

  /** The frame is read out and the flag cleared. */
  lemma ReadsFrame(s: State, plen: nat, n: nat) returns (t: State)
    requires s.irq.RxTest? && s.lock == Irq && s.status.rxDr && !s.chip.status.Tx() && n >= 4
    ensures
      t == s.(irq := if plen > 0 then UnlockRx else Reread, plen := plen,
              chip := s.chip.(status := s.chip.status.(rxDr := false)))
    ensures Exec(s, Alone(n, plen)) == Exec(t, Alone(n - 4, plen))
  {
    hide Exec;
    t := OneAlone(s, n, plen);
    t := OneAlone(t, n - 1, plen);
    t := OneAlone(t, n - 2, plen);
    t := OneAlone(t, n - 3, plen);
  }

  /** One round of the receive loop. */
  lemma FetchesFrame(s: State, plen: nat, n: nat) returns (t: State)
    requires s.irq.RxTest? && s.lock == Irq && s.status.rxDr && !s.chip.status.Tx()
    requires n >= 5 + (if plen > 0 then 3 else 0)
    ensures t.irq.RxTest? && t.lock == Irq && t.status == t.chip.status == CLEAR && t.txDone == s.txDone
    ensures t.handed == s.handed + (if plen > 0 then [plen] else [])
    ensures Exec(s, Alone(n, plen)) == Exec(t, Alone(n - 5 - (if plen > 0 then 3 else 0), plen))
  {
    hide Exec;
    t := ReadsFrame(s, plen, n);
    if plen > 0 {
      t := OneAlone(t, n - 4, plen);
      t := OneAlone(t, n - 5, plen);
      t := OneAlone(t, n - 6, plen);
      t := OneAlone(t, n - 7, plen);
    } else {
      t := OneAlone(t, n - 4, plen);
    }
  }

  /** A frame that comes in is fetched and handed on by the next pass of the interrupt thread, which clears the flag,
      posts a completion if there is one, and gives the mutex back. A frame of width 0 is not handed on. */
  lemma PassReceives(s: State, plen: nat)
    requires s.irq.Sleep? && s.lock == Nobody
    ensures
      var n := 11 + (if s.chip.status.Tx() then 4 else 0) + (if plen > 0 then 3 else 0);
      var t := Exec(s, [ChipReceives] + Alone(n, plen));
      && t.irq.Sleep? && t.lock == Nobody && !t.chip.status.rxDr
      && t.handed == s.handed + (if plen > 0 then [plen] else [])
      && (s.chip.status.Tx() ==> t.txDone == 1)
  {
    var n := 11 + (if s.chip.status.Tx() then 4 else 0) + (if plen > 0 then 3 else 0);
    ExecConcat(s, [ChipReceives], Alone(n, plen));
    var r := Exec(s, [ChipReceives]);
    assert Exec(ReceiveFrame(s), []) == ReceiveFrame(s) && r == ReceiveFrame(s);
    PassFetches(r, plen);
  }

  lemma PassFetches(s: State, plen: nat)
    requires s.irq.Sleep? && s.lock == Nobody && s.chip.status.rxDr
    ensures
      var n := 11 + (if s.chip.status.Tx() then 4 else 0) + (if plen > 0 then 3 else 0);
      var t := Exec(s, Alone(n, plen));
      && t.irq.Sleep? && t.lock == Nobody && !t.chip.status.rxDr
      && t.handed == s.handed + (if plen > 0 then [plen] else [])
      && (s.chip.status.Tx() ==> t.txDone == 1)
  {
    var n := 11 + (if s.chip.status.Tx() then 4 else 0) + (if plen > 0 then 3 else 0);
    var t := ReachesLoop(s, plen, n);
    t := FetchesFrame(t, plen, n - 3 - if s.chip.status.Tx() then 4 else 0);
    t := OneAlone(t, 3, plen);
    t := OneAlone(t, 2, plen);
    t := OneAlone(t, 1, plen);
    assert Exec(t, []) == t;
  }
}
