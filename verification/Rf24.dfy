/** The application's send call on top of the cipher: one message is sealed once and its frame is
    handed to the radio again and again until it is acknowledged. This is where the channel's
    repeated frames come from. */
module Rf24 {
  import opened Words
  import opened Nrf24Crypt
  import opened LinkCipher

  const PAYLOAD_MAX: nat := 32
  const ID_SIZE: nat := 2
  const TX_RETRIES: nat := 5

  /** The message before sealing: a big-endian CAN identifier, then the payload. */
  function Message(canId: nat, data: Bytes): Bytes
    requires canId < 0x1_0000
  {
    [canId / 256, canId % 256] + data
  }

  function Repeat(frame: Bytes, n: nat): (r: seq<Bytes>)
    ensures |r| == n && forall i :: 0 <= i < n ==> r[i] == frame
  {
    seq(n, i => frame)
  }

  class Radio {
    const cipher: Cipher
    /** Every frame handed to the radio driver so far. */
    var air: seq<Bytes>

    constructor (cipher: Cipher)
      ensures this.cipher == cipher && air == []
    {
      this.cipher := cipher;
      air := [];
    }

    /** The message is sealed once, and its frame handed to the radio again and again, `acks(i)` telling whether
        attempt `i` succeeds: up to the first success, but six times at most. */
    method DataSend(canId: nat, data: Bytes, acks: nat -> bool) returns (ok: bool)
      requires canId < 0x1_0000
      modifies this`air, cipher`txCounter
      ensures |data| > 29 ==> !ok && air == old(air) && cipher.txCounter == old(cipher.txCounter)
      ensures |data| <= 29 ==>
        var message := [canId / 256, canId % 256] + data;
        var n := |air| - |old(air)|;
        && 1 <= n <= 6 && ok == acks(n - 1) && (ok || n == 6) && (forall i :: 0 <= i < n - 1 ==> !acks(i))
        && air == old(air) + Repeat(SealFrame(CtrKeystream(cipher.key), old(cipher.txCounter), message), n)
        && cipher.txCounter == Plus(old(cipher.txCounter), 1)
    {
      hide CtrKeystream;
      hide XorStream;
      if |data| > PAYLOAD_MAX - ID_SIZE - 1 {
        return false;
      }
      var buf := new Byte[PAYLOAD_MAX];
      var frameLen := |data| + ID_SIZE;
      ghost var message := Message(canId, data);
      FillMessage(buf, canId, data);
      frameLen := cipher.Seal(buf, frameLen);
      assert frameLen != 0;
      ghost var frame := buf[..frameLen];
      assert frame == SealFrame(CtrKeystream(cipher.key), old(cipher.txCounter), message);
      var attempt := 0;
      var acked: bool;
      while true
        invariant attempt <= TX_RETRIES && buf[..frameLen] == frame
        invariant air == old(air) + Repeat(frame, attempt)
        invariant forall i :: 0 <= i < attempt ==> !acks(i)
        modifies this`air
        decreases TX_RETRIES - attempt
      {
        air := air + [buf[..frameLen]];
        assert air == old(air) + Repeat(frame, attempt + 1);
        acked := acks(attempt);
        if acked || attempt >= TX_RETRIES {
          break;
        }
        attempt := attempt + 1;
      }
      ok := acked;
    }
  }

  method FillMessage(buf: array<Byte>, canId: nat, data: Bytes)
    requires canId < 0x1_0000 && |data| + ID_SIZE <= buf.Length
    modifies buf
    ensures buf[..|data| + ID_SIZE] == Message(canId, data)
  {
    buf[0], buf[1] := canId / 256, canId % 256;
    forall i | 0 <= i < |data| {
      buf[ID_SIZE + i] := data[i];
    }
  }

  // ---------------------------------------------------------------------------
  // Calls, attempts and what reaches the other end
  // ---------------------------------------------------------------------------

  /** One hand-over to the radio: whether the frame reached the peer, and whether the
      acknowledgement made it back. */
  datatype Attempt = Attempt(delivered: bool, acked: bool)

  datatype Call = Call(message: Bytes, attempts: seq<Attempt>)

  /** A call as `DataSend` makes it, over a radio that only acknowledges what was received. */
  predicate ValidCall(c: Call) {
    && ValidPlain(c.message)
    && 1 <= |c.attempts| <= 6
    && (forall i :: 0 <= i < |c.attempts| - 1 ==> !c.attempts[i].acked)
    && (|c.attempts| < 6 ==> c.attempts[|c.attempts| - 1].acked)
    && forall a :: a in c.attempts && a.acked ==> a.delivered
  }

  /** Whether the call returns true: its last attempt was acknowledged. */
  predicate Succeeded(c: Call) {
    |c.attempts| > 0 && c.attempts[|c.attempts| - 1].acked
  }

  function Copies(attempts: seq<Attempt>): nat {
    if attempts == [] then 0 else (if attempts[0].delivered then 1 else 0) + Copies(attempts[1..])
  }

  function Sendings(calls: seq<Call>): (s: seq<Sending>)
    ensures |s| == |calls|
  {
    if calls == [] then []
    else [Sending(calls[0].message, Copies(calls[0].attempts))] + Sendings(calls[1..])
  }

  /** The messages that reached the peer at least once. */
  function Arrived(calls: seq<Call>): seq<Bytes> {
    if calls == [] then []
    else (if exists a :: a in calls[0].attempts && a.delivered then [calls[0].message] else []) + Arrived(calls[1..])
  }

  lemma {:induction false} CopiesCountDelivered(attempts: seq<Attempt>)
    ensures Copies(attempts) > 0 <==> exists a :: a in attempts && a.delivered
  {
    if attempts != [] {
      CopiesCountDelivered(attempts[1..]);
      assert forall a :: a in attempts <==> a == attempts[0] || a in attempts[1..];
    }
  }

  lemma {:induction false} DeliveredIsArrived(calls: seq<Call>)
    ensures Delivered(Sendings(calls)) == Arrived(calls)
  {
    if calls != [] {
      CopiesCountDelivered(calls[0].attempts);
      DeliveredIsArrived(calls[1..]);
      assert Sendings(calls)[1..] == Sendings(calls[1..]);
    }
  }

  lemma {:induction false} SucceededArrives(calls: seq<Call>, i: nat)
    requires i < |calls| && Succeeded(calls[i])
    requires forall a :: a in calls[i].attempts && a.acked ==> a.delivered
    ensures calls[i].message in Arrived(calls)
  {
    if i == 0 {
      var a := calls[0].attempts[|calls[0].attempts| - 1];
      assert a in calls[0].attempts && a.delivered;
    } else {
      SucceededArrives(calls[1..], i - 1);
    }
  }

  /** End to end: both ends start from the same fresh key, every call makes up to six attempts, and
      each attempt may or may not reach the peer. While the losses are tolerable the peer hands out
      exactly the messages that reached it, in calling order and each once however often it was
      repeated; every call that returned true is among them. */
  lemma CallsArriveOnce(ks: Keystream, rx: Rx, calls: seq<Call>)
    requires !rx.initialized
    requires forall i :: 0 <= i < |calls| ==> ValidCall(calls[i])
    requires Tolerable(Sendings(calls), 0, false)
    ensures Link(ks, 0, rx, Sendings(calls)).plains == Arrived(calls)
    ensures forall i :: 0 <= i < |calls| && Succeeded(calls[i]) ==>
      calls[i].message in Link(ks, 0, rx, Sendings(calls)).plains
  {
    SendingsAreValid(calls);
    LinkDelivers(ks, rx, Sendings(calls));
    DeliveredIsArrived(calls);
    forall i | 0 <= i < |calls| && Succeeded(calls[i])
      ensures calls[i].message in Arrived(calls)
    {
      SucceededArrives(calls, i);
    }
  }

  lemma {:induction false} SendingsAreValid(calls: seq<Call>)
    requires forall i :: 0 <= i < |calls| ==> ValidCall(calls[i])
    ensures forall s :: s in Sendings(calls) ==> ValidPlain(s.plain)
  {
    if calls != [] {
      assert ValidCall(calls[0]);
      SendingsAreValid(calls[1..]);
    }
  }
}
