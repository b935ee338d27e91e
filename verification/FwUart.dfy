/** The serial transport's own code: the sender's frame buffer, the interrupt handler's static variables,
    and the queue of eight frames behind it. */
module FwUart {
  import opened Crc16
  import opened UartFrame

  const QUEUE_DEPTH: nat := 8

  /** `k_msgq_put` without waiting: a frame that finds the queue full is lost. */
  function Put(queue: seq<Frame>, f: Frame): seq<Frame> {
    if |queue| < QUEUE_DEPTH then queue + [f] else queue
  }

  function PutAll(queue: seq<Frame>, frames: seq<Frame>): seq<Frame>
    decreases |frames|
  {
    if frames == [] then queue else PutAll(Put(queue, frames[0]), frames[1..])
  }

  lemma PutNothing(queue: seq<Frame>)
    ensures PutAll(queue, []) == queue
  {
  }

  lemma {:induction false} PutAllConcat(queue: seq<Frame>, a: seq<Frame>, b: seq<Frame>)
    ensures PutAll(queue, a + b) == PutAll(PutAll(queue, a), b)
    decreases |a|
  {
    if a == [] {
      assert a + b == b;
    } else {
      assert (a + b)[0] == a[0] && (a + b)[1..] == a[1..] + b;
      PutAllConcat(Put(queue, a[0]), a[1..], b);
    }
  }

  /** The queue takes frames in order until it is full. */
  lemma {:induction false} PutAllTakesPrefix(queue: seq<Frame>, frames: seq<Frame>)
    requires |queue| <= QUEUE_DEPTH
    ensures
      var n := |queue| + |frames|;
      PutAll(queue, frames) == (queue + frames)[..if n < QUEUE_DEPTH then n else QUEUE_DEPTH]
    decreases |frames|
  {
    if frames == [] {
      assert queue + frames == queue;
    } else {
      PutAllTakesPrefix(Put(queue, frames[0]), frames[1..]);
      assert queue + [frames[0]] + frames[1..] == queue + frames;
      if |queue| == QUEUE_DEPTH {
        assert (queue + frames[1..])[..QUEUE_DEPTH] == queue == (queue + frames)[..QUEUE_DEPTH];
      }
    }
  }

  /** Any sequence of frames printed arrives in the queue complete and in order exactly when it has room
      for all of them. */
  lemma DeliveryExact(p: Parser, queue: seq<Frame>, frames: seq<Frame>)
    requires Reachable(p) && p.phase == Idle && AllValid(frames) && |queue| <= QUEUE_DEPTH
    ensures
      PutAll(queue, Parse(p, PrintAll(frames)).frames) == queue + frames <==> |queue| + |frames| <= 8
  {
    hide Parse;
    hide PrintAll;
    hide Reachable;
    PrintedFramesParsed(p, frames);
    PutAllTakesPrefix(queue, frames);
    hide PutAll;
    assert |queue| + |frames| > QUEUE_DEPTH ==> |PutAll(queue, frames)| == QUEUE_DEPTH;
  }

  class Uart {
    var rxState: Phase
    var rxType: bv8
    var rxLen: bv8
    var rxIndex: nat
    const rxBuffer: array<bv8>
    var rxCrc: bv16
    var msgq: seq<Frame>
    var wire: seq<bv8>

    ghost function State(): Parser
      reads this, rxBuffer
    {
      Parser(rxState, rxType, rxLen, rxIndex, rxBuffer[..], rxCrc)
    }

    ghost predicate Valid()
      reads this, rxBuffer
    {
      Reachable(State())
    }

    constructor ()
      ensures Valid() && fresh(rxBuffer)
      ensures State() == RESET && msgq == [] && wire == []
    {
      rxState, rxType, rxLen, rxIndex, rxCrc := Idle, 0, 0, 0, 0;
      rxBuffer := new bv8[MAX_LEN](_ => 0);
      msgq, wire := [], [];
    }

    method MsgqPut(f: Frame)
      modifies this`msgq
      ensures msgq == Put(old(msgq), f)
    {
      if |msgq| < QUEUE_DEPTH {
        msgq := msgq + [f];
      }
    }

    /** One more data byte. */
    method StoreByte(b: bv8)
      requires Valid() && rxState == Body
      modifies this`rxState, this`rxIndex, rxBuffer
      ensures State() == TakeBody(old(State()), b)
    {
      rxBuffer[rxIndex] := b;
      rxIndex := rxIndex + 1;
      if rxIndex >= Nat(rxLen) {
        rxState := CrcHigh;
      }
    }

    /** The second checksum byte: a frame whose checksum fits goes to the queue. */
    method FinishFrame(b: bv8)
      requires Valid() && rxState == CrcLow
      modifies this`rxState, this`rxCrc, this`msgq
      ensures
        var r := TakeCrc(old(State()), b);
        State() == r.parser && msgq == PutAll(old(msgq), r.frames)
    {
      hide Crc;
      rxCrc := WithLow(rxCrc, b);
      ghost var queue := msgq;
      ghost var data := rxBuffer[..][..Nat(rxLen)];
      assert rxBuffer[..Nat(rxLen)] == data;
      var crc := Crc16Ccitt(rxBuffer, Nat(rxLen));
      if crc == rxCrc {
        var f := Frame(rxType, rxBuffer[..Nat(rxLen)]);
        MsgqPut(f);
        assert PutAll(queue, [f]) == PutAll(Put(queue, f), []);
      }
      rxState := Idle;
    }

    /** The bytes around the body: they change the state and the fields before the checksum. */
    method RxHeader(b: bv8)
      requires rxState != Body && rxState != CrcLow && Valid()
      modifies this`rxState, this`rxType, this`rxLen, this`rxIndex, this`rxCrc
      ensures Step(old(State()), b) == Parsed(State(), [])
    {
      hide Nat;
      hide Truncated;
      hide Shifted;
      hide Reachable;
      match rxState
      case Idle =>
        if b == HEAD {
          rxState := Kind;
        }
      case Kind =>
        if b == CMD || b == DATA {
          rxType := b;
          rxIndex := 0;
          rxState := LenHigh;
        } else {
          rxState := Idle;
        }
      case LenHigh =>
        rxLen := Truncated(b);
        rxState := LenLow;
      case LenLow =>
        rxLen := rxLen | b;
        if rxLen <= 8 {
          rxState := if rxLen > 0 then Body else CrcHigh;
        } else {
          rxState := Idle;
        }
      case CrcHigh =>
        rxCrc := Shifted(b);
        rxState := CrcLow;
    }

    method RxByte(b: bv8)
      requires Valid()
      modifies this, rxBuffer
      ensures Valid() && wire == old(wire)
      ensures
        var r := Step(old(State()), b);
        State() == r.parser && msgq == PutAll(old(msgq), r.frames)
    {
      hide TakeCrc;
      StepStaysReachable(State(), b);
      PutNothing(msgq);
      if rxState == Body {
        StoreByte(b);
      } else if rxState == CrcLow {
        FinishFrame(b);
      } else {
        RxHeader(b);
      }
    }

    /** The interrupt handler draining the receive FIFO. */
    method UartIsr(fifo: seq<bv8>)
      requires Valid()
      modifies this, rxBuffer
      ensures Valid() && wire == old(wire)
      ensures
        var r := Parse(old(State()), fifo);
        State() == r.parser && msgq == PutAll(old(msgq), r.frames)
    {
      hide Step;
      hide Reachable;
      hide Parse;
      hide PutAll;
      ghost var p, queue := State(), msgq;
      ParseNothing(p);
      PutNothing(queue);
      for i := 0 to |fifo|
        invariant Valid() && wire == old(wire)
        invariant State() == Parse(p, fifo[..i]).parser && msgq == PutAll(queue, Parse(p, fifo[..i]).frames)
      {
        ghost var sofar := Parse(p, fifo[..i]);
        assert fifo[..i + 1] == fifo[..i] + [fifo[i]] && [fifo[i]] == [fifo[i]] + [];
        ParseConcat(p, fifo[..i], [fifo[i]]);
        ParseOne(sofar.parser, fifo[i], []);
        ParseNothing(Step(sofar.parser, fifo[i]).parser);
        PutAllConcat(queue, sofar.frames, Step(sofar.parser, fifo[i]).frames);
        RxByte(fifo[i]);
        assert Step(sofar.parser, fifo[i]).frames + [] == Step(sofar.parser, fifo[i]).frames;
      }
      assert fifo[..|fifo|] == fifo;
    }

    /** The opening and the data, laid out in the sender's buffer. */
    method FillFrame(frame: array<bv8>, kind: bv8, data: array<bv8>, len: nat) returns (index: nat)
      requires len <= MAX_LEN && len <= data.Length && frame.Length == 16 && frame != data
      modifies frame
      ensures index == 4 + len
      ensures frame[0] == HEAD && frame[1] == kind && frame[2] == 0 && frame[3] == LenByte(len)
      ensures forall k :: 0 <= k < len ==> frame[4 + k] == data[k]
    {
      hide LenByte;
      index := 0;
      frame[index] := HEAD;
      index := index + 1;
      frame[index] := kind;
      index := index + 1;
      frame[index] := 0;
      index := index + 1;
      frame[index] := LenByte(len);
      index := index + 1;
      forall k | 0 <= k < len {
        frame[index + k] := data[k];
      }
      index := index + len;
    }

    method UartSendFrame(kind: bv8, data: array<bv8>, len: nat)
      requires len <= MAX_LEN && len <= data.Length
      modifies this`wire
      ensures wire == old(wire) + Print(Frame(kind, data[..len]))
    {
      hide Crc;
      hide LenByte;
      hide High;
      hide Low;
      hide Print;
      var frame := new bv8[16];
      var index := FillFrame(frame, kind, data, len);
      var crc := Crc16Ccitt(data, len);
      frame[index] := High(crc);
      index := index + 1;
      frame[index] := Low(crc);
      index := index + 1;
      frame[index] := TAIL;
      index := index + 1;
      LaidOut(frame[..index], Frame(kind, data[..len]));
      PollOut(frame, index);
    }

    method PollOut(frame: array<bv8>, count: nat)
      requires count <= frame.Length
      modifies this`wire
      ensures wire == old(wire) + frame[..count]
    {
      for i := 0 to count
        invariant wire == old(wire) + frame[..i]
      {
        wire := wire + [frame[i]];
      }
    }
  }

  lemma LaidOut(bytes: seq<bv8>, f: Frame)
    requires |f.data| <= MAX_LEN && |bytes| == |f.data| + 7
    requires bytes[0] == HEAD && bytes[1] == f.kind && bytes[2] == 0 && bytes[3] == LenByte(|f.data|)
    requires forall k :: 0 <= k < |f.data| ==> bytes[4 + k] == f.data[k]
    requires
      var end := 4 + |f.data|;
      bytes[end] == High(Crc(f.data)) && bytes[end + 1] == Low(Crc(f.data)) && bytes[end + 2] == TAIL
    ensures bytes == Print(f)
  {
    hide LenByte;
    hide High;
    hide Low;
    hide Crc;
    var w := Print(f);
    forall k | 0 <= k < |bytes|
      ensures bytes[k] == w[k]
    {
      if 4 <= k < 4 + |f.data| {
        assert bytes[4 + (k - 4)] == f.data[k - 4];
      }
    }
  }
}
