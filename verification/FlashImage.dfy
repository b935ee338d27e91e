/** Zephyr's `flash_img` as the upgrade code relies on it: an append-only stream into an erased slot,
    written in whole blocks, the rest held back until a flush. */
module FlashImage {
  import opened Words

  /** `block` is the size of the stream's buffer, `capacity` the size of the slot. */
  datatype Slot = Slot(capacity: nat, block: nat)

  /** Length of the hash of a signing key. */
  const KEY_LEN: nat := 32

  /** `flushed` is what has been programmed from the slot's first byte on, `pending` is still in the buffer;
      `erased` says that the slot had been erased before, without which it does not show what is programmed. */
  datatype Image = Image(flushed: Bytes, pending: Bytes, erased: bool) {
    function Contents(): Bytes {
      flushed + pending
    }
  }

  /** A stream just opened on a slot. */
  function Opened(erased: bool): Image {
    Image([], [], erased)
  }

  /** Nothing written yet, on an erased slot. */
  const EMPTY: Image := Opened(true)

  /** The slot starts with exactly these bytes, as far as anything has been programmed. */
  predicate Shows(img: Image, bytes: Bytes) {
    img.erased && img.flushed == bytes
  }

  predicate HasRoom(slot: Slot, img: Image, data: Bytes) {
    |img.flushed| + |img.pending| + |data| <= slot.capacity
  }

  /** The largest multiple of `block` not above `n`. */
  function WholeBlocks(n: nat, block: nat): (w: nat)
    requires block > 0
    ensures w <= n < w + block
  {
    if n < block then 0 else block + WholeBlocks(n - block, block)
  }

  /** `flash_img_buffered_write`; None when the slot is full or the flash reports an error. */
  function BufferedWrite(slot: Slot, img: Image, data: Bytes, flush: bool, flashOk: bool): Option<Image>
    requires slot.block > 0
  {
    if !HasRoom(slot, img, data) || !flashOk then None
    else
      var all := img.pending + data;
      var whole := if flush then |all| else WholeBlocks(|all|, slot.block);
      Some(Image(img.flushed + all[..whole], all[whole..], img.erased))
  }

  lemma WriteAppends(slot: Slot, img: Image, data: Bytes, flush: bool)
    requires slot.block > 0 && HasRoom(slot, img, data)
    ensures
      var r := BufferedWrite(slot, img, data, flush, true);
      && r.Some? && r.value.erased == img.erased
      && r.value.Contents() == img.Contents() + data
      && (flush ==> r.value.pending == [] && r.value.flushed == img.Contents() + data)
      && (!flush ==> |r.value.pending| < slot.block)
      && img.flushed <= r.value.flushed
  {
    hide WholeBlocks;
    var all := img.pending + data;
    var whole := if flush then |all| else WholeBlocks(|all|, slot.block);
    assert |all[..whole]| == whole && |all[whole..]| == |all| - whole;
    assert all[..whole] + all[whole..] == all;
    assert (img.flushed + all[..whole]) + all[whole..] == img.flushed + (all[..whole] + all[whole..]);
    assert img.flushed + (img.pending + data) == (img.flushed + img.pending) + data;
    if flush {
      assert all[..whole] == all && all[whole..] == [];
    }
  }

  /** Whole blocks already taken off do not matter for how many more there are. */
  lemma {:induction false} WholeBlocksAdd(n: nat, m: nat, block: nat)
    requires block > 0
    ensures WholeBlocks(n + m, block) == WholeBlocks(n, block) + WholeBlocks(n - WholeBlocks(n, block) + m, block)
    decreases n
  {
    if n >= block {
      WholeBlocksAdd(n - block, m, block);
    }
  }

  /** The call as the handlers make it: the stream changes only if the write succeeds. */
  method TryWrite(slot: Slot, img: Image, data: Bytes, flush: bool, flashOk: bool) returns (ok: bool, after: Image)
    requires slot.block > 0
    ensures
      var r := BufferedWrite(slot, img, data, flush, flashOk);
      ok == r.Some? && after == if ok then r.value else img
  {
    var r := BufferedWrite(slot, img, data, flush, flashOk);
    ok := r.Some?;
    after := if ok then r.value else img;
  }

  /** What a stream written without flushing has brought into the slot: the whole blocks, from the first on. */
  ghost predicate InBlocks(slot: Slot, img: Image)
    requires slot.block > 0
  {
    |img.flushed| == WholeBlocks(|img.Contents()|, slot.block)
  }

  lemma WriteKeepsBlocks(slot: Slot, img: Image, data: Bytes)
    requires slot.block > 0 && HasRoom(slot, img, data) && InBlocks(slot, img)
    ensures InBlocks(slot, BufferedWrite(slot, img, data, false, true).value)
  {
    hide WholeBlocks;
    WriteAppends(slot, img, data, false);
    WholeBlocksAdd(|img.Contents()|, |data|, slot.block);
  }
}
