/** Frames on the serial link: how they are printed, and the machine that parses them byte by byte. */
module UartFrame {
  import opened Crc16

  const HEAD: bv8 := 0xAA
  const TAIL: bv8 := 0x55
  const CMD: bv8 := 0x01
  const DATA: bv8 := 0x02
  const MAX_LEN: nat := 8

  datatype Frame = Frame(kind: bv8, data: seq<bv8>) {
    predicate Valid() {
      (kind == CMD || kind == DATA) && |data| <= MAX_LEN
    }
  }

  function Nat(b: bv8): nat {
    b as nat
  }

  function LenByte(n: nat): bv8
    requires n <= MAX_LEN
  {
    n as bv8
  }

  lemma LenByteNat(n: nat)
    requires n <= MAX_LEN
    ensures Nat(LenByte(n)) == n
  {
  }

  lemma NatSmall(b: bv8)
    ensures b <= 8 <==> Nat(b) <= MAX_LEN
    ensures b > 0 <==> Nat(b) > 0
  {
  }

  function High(crc: bv16): bv8 {
    ((crc >> 8) & 0xFF) as bv8
  }

  function Low(crc: bv16): bv8 {
    (crc & 0xFF) as bv8
  }

  function Shifted(b: bv8): bv16 {
    (b as bv16) << 8
  }

  function WithLow(crc: bv16, b: bv8): bv16 {
    crc | (b as bv16)
  }

  /** What a receiver makes of the two checksum bytes. */
  lemma JoinedBack(crc: bv16)
    ensures WithLow(Shifted(High(crc)), Low(crc)) == crc
  {
  }

  // ---------------------------------------------------------------------------
  // Printing
  // ---------------------------------------------------------------------------

  /** A frame with any checksum and any high length byte. */
  function Wire(f: Frame, lenHigh: bv8, crc: bv16): seq<bv8>
    requires |f.data| <= MAX_LEN
  {
    [HEAD, f.kind, lenHigh, LenByte(|f.data|)] + f.data + [High(crc), Low(crc), TAIL]
  }

  function Print(f: Frame): seq<bv8>
    requires |f.data| <= MAX_LEN
  {
    Wire(f, 0, Crc(f.data))
  }

  predicate AllValid(frames: seq<Frame>) {
    forall f :: f in frames ==> f.Valid()
  }

  function PrintAll(frames: seq<Frame>): seq<bv8>
    requires AllValid(frames)
  {
    if frames == [] then []
    else
      assert frames[0] in frames && forall f :: f in frames[1..] ==> f in frames;
      Print(frames[0]) + PrintAll(frames[1..])
  }

  // ---------------------------------------------------------------------------
  // Parsing
  // ---------------------------------------------------------------------------

  datatype Phase = Idle | Kind | LenHigh | LenLow | Body | CrcHigh | CrcLow

  datatype Parser = Parser(phase: Phase, kind: bv8, len: bv8, index: nat, buffer: seq<bv8>, crc: bv16)

  ghost predicate Reachable(p: Parser) {
    && |p.buffer| == MAX_LEN
    && (p.phase.LenHigh? || p.phase.LenLow? ==> p.index == 0)
    && (p.phase.LenLow? ==> p.len == 0)
    && (p.phase.Body? ==> p.index < Nat(p.len) <= MAX_LEN)
    && (p.phase.CrcHigh? || p.phase.CrcLow? ==> Nat(p.len) <= MAX_LEN)
    && (!p.phase.Idle? && !p.phase.Kind? ==> p.kind == CMD || p.kind == DATA)
    && (p.phase.CrcLow? ==> Low(p.crc) == 0)
  }

  const RESET: Parser := Parser(Idle, 0, 0, 0, [0, 0, 0, 0, 0, 0, 0, 0], 0)

  /** The new state, and the frame completed by this byte, if any. */
  datatype Parsed = Parsed(parser: Parser, frames: seq<Frame>)

  /** The low eight bits of the byte moved into the high half. */
  function Truncated(b: bv8): bv8 {
    Low(Shifted(b))
  }

  function Start(p: Parser, b: bv8): Parser {
    if b == HEAD then p.(phase := Kind) else p
  }

  function TakeKind(p: Parser, b: bv8): Parser {
    if b == CMD || b == DATA then p.(kind := b, index := 0, phase := LenHigh) else p.(phase := Idle)
  }

  function TakeLen(p: Parser, b: bv8): Parser {
    var len := p.len | b;
    p.(len := len, phase := if len <= 8 then if len > 0 then Body else CrcHigh else Idle)
  }

  function TakeBody(p: Parser, b: bv8): Parser
    requires p.index < |p.buffer|
  {
    p.(buffer := p.buffer[p.index := b], index := p.index + 1,
       phase := if p.index + 1 >= Nat(p.len) then CrcHigh else Body)
  }

  function TakeCrc(p: Parser, b: bv8): Parsed
    requires Nat(p.len) <= |p.buffer|
  {
    var crc := WithLow(p.crc, b);
    var data := p.buffer[..Nat(p.len)];
    Parsed(p.(crc := crc, phase := Idle), if Crc(data) == crc then [Frame(p.kind, data)] else [])
  }

  function Step(p: Parser, b: bv8): (r: Parsed)
    requires Reachable(p)
  {
    match p.phase
    case Idle => Parsed(Start(p, b), [])
    case Kind => Parsed(TakeKind(p, b), [])
    case LenHigh => Parsed(p.(len := Truncated(b), phase := LenLow), [])
    case LenLow => Parsed(TakeLen(p, b), [])
    case Body => Parsed(TakeBody(p, b), [])
    case CrcHigh => Parsed(p.(crc := Shifted(b), phase := CrcLow), [])
    case CrcLow => TakeCrc(p, b)
  }

  lemma HighLengthByteLost(b: bv8)
    ensures Truncated(b) == 0
  {
  }

  lemma HighByteOnly(b: bv8)
    ensures Low(Shifted(b)) == 0
  {
  }

  /** In every reachable state the body's index stays below its length, which is at most eight; whatever
      is delivered is a well-formed frame. */
  lemma StepStaysReachable(p: Parser, b: bv8)
    requires Reachable(p)
    ensures Reachable(Step(p, b).parser)
    ensures AllValid(Step(p, b).frames) && |Step(p, b).frames| <= 1
  {
    hide Nat;
    hide Low;
    hide Truncated;
    hide Shifted;
    hide WithLow;
    HighLengthByteLost(b);
    HighByteOnly(b);
    NatSmall(p.len | b);
    hide Crc;
  }

  function Parse(p: Parser, bytes: seq<bv8>): Parsed
    requires Reachable(p)
    decreases |bytes|
  {
    if bytes == [] then Parsed(p, [])
    else
      StepStaysReachable(p, bytes[0]);
      var r := Step(p, bytes[0]);
      var rest := Parse(r.parser, bytes[1..]);
      Parsed(rest.parser, r.frames + rest.frames)
  }

  lemma {:induction false} ParseStaysReachable(p: Parser, bytes: seq<bv8>)
    requires Reachable(p)
    ensures Reachable(Parse(p, bytes).parser) && AllValid(Parse(p, bytes).frames)
    decreases |bytes|
  {
    hide Reachable;
    hide Step;
    if bytes != [] {
      StepStaysReachable(p, bytes[0]);
      ParseStaysReachable(Step(p, bytes[0]).parser, bytes[1..]);
    }
  }

  lemma {:induction false} ParseConcat(p: Parser, a: seq<bv8>, b: seq<bv8>)
    requires Reachable(p)
    ensures
      var r := Parse(p, a);
      && Reachable(r.parser)
      && Parse(p, a + b) == Parsed(Parse(r.parser, b).parser, r.frames + Parse(r.parser, b).frames)
    decreases |a|
  {
    hide Reachable;
    hide Step;
    if a == [] {
      assert a + b == b;
      assert Parse(p, b).frames == [] + Parse(p, b).frames;
    } else {
      StepStaysReachable(p, a[0]);
      ParseConcat(Step(p, a[0]).parser, a[1..], b);
      assert (a + b)[0] == a[0] && (a + b)[1..] == a[1..] + b;
    }
  }

  lemma ParseOne(p: Parser, b: bv8, rest: seq<bv8>)
    requires Reachable(p)
    ensures
      var r := Step(p, b);
      && Reachable(r.parser)
      && Parse(p, [b] + rest) == Parsed(Parse(r.parser, rest).parser, r.frames + Parse(r.parser, rest).frames)
  {
    hide Step;
    hide Reachable;
    StepStaysReachable(p, b);
    assert ([b] + rest)[0] == b && ([b] + rest)[1..] == rest;
  }

  // ---------------------------------------------------------------------------
  // The frame just printed is the frame parsed
  // ---------------------------------------------------------------------------

  /** The body fills the buffer, byte after byte. */
  lemma {:induction false} BodyFills(p: Parser, data: seq<bv8>, i: nat)
    requires Reachable(p) && p.phase == Body && p.index == i < Nat(p.len) == |data|
    requires p.buffer[..i] == data[..i]
    ensures
      var r := Parse(p, data[i..]);
      && Reachable(r.parser) && r.frames == []
      && r.parser.phase == CrcHigh && r.parser.kind == p.kind && r.parser.len == p.len
      && r.parser.buffer[..Nat(p.len)] == data
    decreases |data| - i
  {
    hide Nat;
    hide Low;
    assert data[i..] == [data[i]] + data[i + 1..];
    ParseOne(p, data[i], data[i + 1..]);
    var q := Step(p, data[i]).parser;
    assert q == TakeBody(p, data[i]);
    assert q.buffer[..i + 1] == data[..i + 1] by {
      assert q.buffer[..i + 1] == p.buffer[..i] + [data[i]];
    }
    if i + 1 < |data| {
      BodyFills(q, data, i + 1);
    } else {
      assert data[i + 1..] == [] && data[..i + 1] == data;
    }
  }

  /** The parser behind the four bytes that open a frame. */
  lemma Opening(p: Parser, f: Frame, lenHigh: bv8)
    requires Reachable(p) && p.phase == Idle && f.Valid()
    ensures
      var r := Parse(p, [HEAD, f.kind, lenHigh, LenByte(|f.data|)]);
      && Reachable(r.parser) && r.frames == []
      && r.parser == p.(phase := if f.data == [] then CrcHigh else Body, kind := f.kind,
                        len := LenByte(|f.data|), index := 0)
  {
    hide Nat;
    hide LenByte;
    hide Low;
    hide Truncated;
    var n := LenByte(|f.data|);
    LenByteNat(|f.data|);
    NatSmall(n);
    HighLengthByteLost(lenHigh);
    var p1 := p.(phase := Kind);
    var p2 := p1.(kind := f.kind, index := 0, phase := LenHigh);
    var p3 := p2.(len := 0, phase := LenLow);
    ParseFour(p, HEAD, f.kind, lenHigh, n);
    assert Step(p, HEAD) == Parsed(p1, []);
    assert Step(p1, f.kind) == Parsed(p2, []);
    assert Step(p2, lenHigh) == Parsed(p3, []);
    OrZero(n);
    assert Step(p3, n) == Parsed(p3.(len := n, phase := if f.data == [] then CrcHigh else Body), []);
  }

  lemma OrZero(b: bv8)
    ensures 0 | b == b
  {
  }

  lemma ParseFour(p: Parser, a: bv8, b: bv8, c: bv8, d: bv8)
    requires Reachable(p)
    requires Step(p, a).frames == []
    ensures
      && Reachable(Step(p, a).parser)
      && var q := Step(p, a).parser;
      && Reachable(Step(q, b).parser)
      && var r := Step(q, b).parser;
      && Reachable(Step(r, c).parser)
      && var s := Step(r, c).parser;
      && Reachable(Step(s, d).parser)
      && Parse(p, [a, b, c, d]) ==
         Parsed(Step(s, d).parser, Step(q, b).frames + Step(r, c).frames + Step(s, d).frames)
  {
    hide Step;
    hide Reachable;
    assert [a, b, c, d] == [a] + ([b] + ([c] + [d])) && [d] == [d] + [];
    ParseOne(p, a, [b] + ([c] + [d]));
    var q := Step(p, a).parser;
    ParseOne(q, b, [c] + [d]);
    var r := Step(q, b).parser;
    ParseOne(r, c, [d]);
    var s := Step(r, c).parser;
    ParseOne(s, d, []);
  }

  /** The checksum and the tail: the frame is delivered exactly when the checksum fits its data. */
  lemma Closing(p: Parser, data: seq<bv8>, crc: bv16)
    requires Reachable(p) && p.phase == CrcHigh && Nat(p.len) == |data| && p.buffer[..|data|] == data
    ensures
      var r := Parse(p, [High(crc), Low(crc), TAIL]);
      && Reachable(r.parser) && r.parser.phase == Idle
      && r.frames == if Crc(data) == crc then [Frame(p.kind, data)] else []
  {
    hide Nat;
    hide Low;
    hide High;
    hide Crc;
    hide Shifted;
    hide WithLow;
    JoinedBack(crc);
    var h, l := High(crc), Low(crc);
    var p1 := p.(crc := Shifted(h), phase := CrcLow);
    assert [h, l, TAIL] == [h] + ([l] + [TAIL]) && [TAIL] == [TAIL] + [];
    ParseOne(p, h, [l] + [TAIL]);
    ParseOne(p1, l, [TAIL]);
    var p2 := Step(p1, l).parser;
    ParseOne(p2, TAIL, []);
    TailIsNoHead();
  }

  lemma TailIsNoHead()
    ensures TAIL != HEAD
  {
  }

  /** From IDLE, whatever is left in its buffer, the parser delivers a frame exactly when its checksum
      fits, ignores the high length byte, and is back in IDLE. */
  lemma FrameParsed(p: Parser, f: Frame, lenHigh: bv8, crc: bv16)
    requires Reachable(p) && p.phase == Idle && f.Valid()
    ensures
      var r := Parse(p, Wire(f, lenHigh, crc));
      && Reachable(r.parser) && r.parser.phase == Idle
      && r.frames == if Crc(f.data) == crc then [f] else []
  {
    hide Reachable;
    hide Nat;
    hide LenByte;
    hide Crc;
    hide Parse;
    var open, close := [HEAD, f.kind, lenHigh, LenByte(|f.data|)], [High(crc), Low(crc), TAIL];
    Opening(p, f, lenHigh);
    LenByteNat(|f.data|);
    var p1 := Parse(p, open).parser;
    ParseConcat(p, open, f.data + close);
    assert Wire(f, lenHigh, crc) == open + (f.data + close);
    if f.data == [] {
      assert f.data + close == close && p1.buffer[..0] == [];
      Closing(p1, f.data, crc);
    } else {
      assert f.data[0..] == f.data;
      BodyFills(p1, f.data, 0);
      ParseConcat(p1, f.data, close);
      Closing(Parse(p1, f.data).parser, f.data, crc);
    }
  }

  /** Round trip: any sequence of frames comes out as it went in. */
  lemma {:induction false} PrintedFramesParsed(p: Parser, frames: seq<Frame>)
    requires Reachable(p) && p.phase == Idle && AllValid(frames)
    ensures
      var r := Parse(p, PrintAll(frames));
      Reachable(r.parser) && r.parser.phase == Idle && r.frames == frames
    decreases |frames|
  {
    hide Reachable;
    hide Parse;
    hide Crc;
    hide Wire;
    if frames == [] {
      ParseNothing(p);
    } else {
      assert frames[0] in frames && forall f :: f in frames[1..] ==> f in frames;
      FrameParsed(p, frames[0], 0, Crc(frames[0].data));
      var q := Parse(p, Print(frames[0])).parser;
      ParseConcat(p, Print(frames[0]), PrintAll(frames[1..]));
      PrintedFramesParsed(q, frames[1..]);
    }
  }

  lemma ParseNothing(p: Parser)
    requires Reachable(p)
    ensures Parse(p, []) == Parsed(p, [])
  {
  }

  // ---------------------------------------------------------------------------
  // Damage and recovery
  // ---------------------------------------------------------------------------

  /** A frame whose data was damaged on the way, within two adjacent bytes, is not delivered, and the
      frames behind it are. */
  lemma DamagedFrameDropped(p: Parser, f: Frame, damaged: seq<bv8>, i: nat, after: seq<Frame>)
    requires Reachable(p) && p.phase == Idle && f.Valid() && AllValid(after)
    requires DifferOnlyAt(f.data, damaged, i) && damaged != f.data
    ensures
      var r := Parse(p, Wire(Frame(f.kind, damaged), 0, Crc(f.data)) + PrintAll(after));
      r.frames == after
  {
    hide Reachable;
    hide Parse;
    hide Crc;
    hide Wire;
    AdjacentDamageShows(f.data, damaged, i);
    var bytes := Wire(Frame(f.kind, damaged), 0, Crc(f.data));
    FrameParsed(p, Frame(f.kind, damaged), 0, Crc(f.data));
    ParseConcat(p, bytes, PrintAll(after));
    PrintedFramesParsed(Parse(p, bytes).parser, after);
  }

  /** How many bytes other than a head the parser needs, at most, to be back in IDLE. */
  function Distance(p: Parser): (d: nat)
    ensures d == 0 <==> p.phase == Idle
  {
    match p.phase
    case Idle => 0
    case Kind => 13
    case LenHigh => 12
    case LenLow => 11
    case Body => 2 + if p.index < Nat(p.len) then Nat(p.len) - p.index else 1
    case CrcHigh => 2
    case CrcLow => 1
  }

  lemma CloserToIdle(p: Parser, b: bv8)
    requires Reachable(p) && b != HEAD
    ensures Distance(Step(p, b).parser) <= if Distance(p) > 0 then Distance(p) - 1 else 0
  {
    hide Low;
    hide Truncated;
    hide Nat;
    hide Crc;
    HighLengthByteLost(b);
    NatSmall(p.len | b);
  }

  lemma {:induction false} BackToIdle(p: Parser, junk: seq<bv8>)
    requires Reachable(p) && HEAD !in junk
    ensures Distance(Parse(p, junk).parser) <= if |junk| < Distance(p) then Distance(p) - |junk| else 0
    decreases |junk|
  {
    hide Reachable;
    hide Step;
    hide Distance;
    if junk != [] {
      assert junk[0] in junk && forall b :: b in junk[1..] ==> b in junk;
      StepStaysReachable(p, junk[0]);
      CloserToIdle(p, junk[0]);
      BackToIdle(Step(p, junk[0]).parser, junk[1..]);
    }
  }

  /** Resynchronisation: whatever came before, thirteen bytes other than a head and the parser delivers
      the following frames as they were printed. */
  lemma Resynchronises(garbage: seq<bv8>, junk: seq<bv8>, frames: seq<Frame>)
    requires |junk| >= 13 && HEAD !in junk && AllValid(frames)
    ensures Reachable(RESET)
    ensures
      var before := Parse(RESET, garbage + junk);
      var r := Parse(RESET, garbage + junk + PrintAll(frames));
      before.parser.phase == Idle && r.parser.phase == Idle && r.frames == before.frames + frames
  {
    var p := Parse(RESET, garbage).parser;
    ParseStaysReachable(RESET, garbage);
    assert Distance(p) <= 13;
    hide Reachable;
    hide Parse;
    hide Distance;
    BackToIdle(p, junk);
    ParseConcat(RESET, garbage, junk);
    ParseConcat(RESET, garbage + junk, PrintAll(frames));
    PrintedFramesParsed(Parse(RESET, garbage + junk).parser, frames);
  }

  lemma EightByte()
    ensures LenByte(8) == 8
  {
  }

  /** Twelve are not enough: behind a head, these lead into the middle of a checksum. */
  lemma TwelveAreTooFew(zeros: seq<bv8>)
    requires |zeros| == 8 && forall b :: b in zeros ==> b == 0
    ensures Reachable(RESET)
    ensures
      var junk := [CMD, 0, 8] + zeros + [0];
      |junk| == 12 && HEAD !in junk && Parse(RESET, [HEAD] + junk).parser.phase == CrcLow
  {
    EightByte();
    LenByteNat(8);
    hide Nat;
    hide LenByte;
    hide Low;
    hide Truncated;
    hide TakeCrc;
    assert Reachable(RESET);
    hide Reachable;
    hide Parse;
    var f := Frame(CMD, zeros);
    var open := [HEAD, f.kind, 0, LenByte(|f.data|)];
    Opening(RESET, f, 0);
    assert [HEAD] + ([CMD, 0, 8] + zeros + [0]) == open + (zeros + [0]);
    ParseConcat(RESET, open, zeros + [0]);
    var p := Parse(RESET, open).parser;
    assert zeros[0..] == zeros;
    BodyFills(p, zeros, 0);
    ParseConcat(p, zeros, [0]);
    var q := Parse(p, zeros).parser;
    assert [0] + [] == [0];
    ParseOne(q, 0, []);
    ParseNothing(Step(q, 0).parser);
  }

  // ---------------------------------------------------------------------------
  // Known answers
  // ---------------------------------------------------------------------------

  lemma KnownLengths()
    ensures LenByte(0) == 0 && LenByte(2) == 2
  {
  }

  /** Two frames as they stand on the wire, and what a frame can be. */
  lemma KnownPrints(f: Frame)
    ensures Print(Frame(0x01, [])) == [0xAA, 0x01, 0x00, 0x00, 0xFF, 0xFF, 0x55]
    ensures Print(Frame(0x02, [0x31, 0x32])) == [0xAA, 0x02, 0x00, 0x02, 0x31, 0x32, 0xF5, 0x95, 0x55]
    ensures f.Valid() <==> (f.kind == 0x01 || f.kind == 0x02) && |f.data| <= 8
  {
    KnownCrc();
    hide Crc;
    KnownLengths();
    hide LenByte;
  }

  /** And one of them parsed, whatever has been parsed before. */
  lemma KnownParse(p: Parser)
    requires Reachable(p) && p.phase == Idle
    ensures
      Parse(p, [0xAA, 0x02, 0x00, 0x02, 0x31, 0x32, 0xF5, 0x95, 0x55]).frames == [Frame(0x02, [0x31, 0x32])]
  {
    hide Reachable;
    hide Parse;
    hide Print;
    hide Crc;
    var f := Frame(0x02, [0x31, 0x32]);
    KnownPrints(f);
    assert Print(f) == Wire(f, 0, Crc(f.data)) by { PrintIsWire(f); }
    FrameParsed(p, f, 0, Crc(f.data));
  }

  lemma PrintIsWire(f: Frame)
    requires |f.data| <= MAX_LEN
    ensures Print(f) == Wire(f, 0, Crc(f.data))
  {
    hide Crc;
    hide Wire;
  }
}
