/** The index databases, kept as bitmaps relative to the newest index. */
module Replay {
  import opened Types
  import opened Bits
  import opened SlidingWindow
  import opened ReplayIndex

  /** The indexes a bitmap stands for: bit k marks the index k before `top`. */
  ghost function Marks(bitmap: nat, top: int): set<int> {
    set k | 0 <= k < BitLen(bitmap) && Bit(bitmap, k) :: top - k
  }

  lemma InMarks(bitmap: nat, top: int, i: int)
    ensures i in Marks(bitmap, top) <==> i <= top && Bit(bitmap, top - i)
  {
    if i <= top && Bit(bitmap, top - i) {
      BitBelowLen(bitmap, top - i);
      assert i == top - (top - i);
    }
  }

  /** The window that a bitmap and a mask stand for. */
  ghost function Bitmap(bitmap: nat, top: int, mask: nat): Window {
    Window(top, Marks(bitmap, top), BitLen(mask))
  }

  /** The bitmap after moving forward by d: shift, crop, and set bit 0. */
  function Moved(bitmap: nat, d: nat, mask: nat): nat {
    SetBit(if d < BitLen(mask) then And(Shl(bitmap, d), mask) else 0, 0)
  }

  lemma BitOfMoved(bitmap: nat, d: nat, size: nat, k: nat)
    ensures Bit(Moved(bitmap, d, Mask(size)), k) <==> k == 0 || (d <= k < size && Bit(bitmap, k - d))
  {
    BitLenOfMask(size);
    BitOfZero(k);
    BitOfShl(bitmap, d, k);
    BitOfMask(size, k);
    BitOfAnd(Shl(bitmap, d), Mask(size), k);
    BitOfSetBit(if d < size then And(Shl(bitmap, d), Mask(size)) else 0, 0, k);
  }

  /** Shift, crop and set bit 0 is what a window that moves forward requires. */
  lemma Advance(bitmap: nat, top: int, d: nat, mask: nat)
    requires d > 0 && mask == Mask(BitLen(mask))
    ensures Bitmap(Moved(bitmap, d, mask), top + d, mask) == Bitmap(bitmap, top, mask).Add(top + d)
    ensures BitLen(Moved(bitmap, d, mask)) <= Max(1, BitLen(mask))
  {
    hide SetBit, Bit, Marks, Moved, Mask;
    var moved, size := Moved(bitmap, d, mask), BitLen(mask);
    if moved > 0 {
      TopBit(moved);
      BitOfMoved(bitmap, d, size, BitLen(moved) - 1);
    }
    var after, before := Marks(moved, top + d), Marks(bitmap, top);
    var spec := Bitmap(bitmap, top, mask).Add(top + d).marks;
    forall i
      ensures i in after <==> i in spec
    {
      InMarks(moved, top + d, i);
      InMarks(bitmap, top, i);
      if i <= top + d {
        BitOfMoved(bitmap, d, size, top + d - i);
      }
    }
  }

  /** The window update both databases perform when the newest index moves forward. */
  method Shift(bitmap: nat, diff: nat, mask: nat, ghost top: int) returns (window: nat)
    requires diff > 0 && mask == Mask(BitLen(mask))
    ensures Bitmap(window, top + diff, mask) == Bitmap(bitmap, top, mask).Add(top + diff)
    ensures BitLen(window) <= Max(1, BitLen(mask))
  {
    window := bitmap;
    if diff < BitLen(mask) {
      window := Shl(window, diff);
      window := And(window, mask);
    } else {
      window := 0;
    }
    window := SetBit(window, 0);
    Advance(bitmap, top, diff, mask);
  }

  /** Setting a bit of the bitmap marks one older index. */
  lemma Mark(bitmap: nat, top: int, d: nat, mask: nat)
    requires d < BitLen(mask)
    ensures Bitmap(SetBit(bitmap, d), top, mask) == Bitmap(bitmap, top, mask).Add(top - d)
    ensures BitLen(SetBit(bitmap, d)) <= Max(BitLen(mask), BitLen(bitmap))
  {
    hide SetBit, Bit, Marks;
    var after, before := Marks(SetBit(bitmap, d), top), Marks(bitmap, top);
    forall i
      ensures i in after <==> i in before + {top - d}
    {
      InMarks(SetBit(bitmap, d), top, i);
      InMarks(bitmap, top, i);
      if i <= top {
        BitOfSetBit(bitmap, d, top - i);
      }
    }
    var len := BitLen(SetBit(bitmap, d));
    if len > 0 {
      TopBit(SetBit(bitmap, d));
      BitOfSetBit(bitmap, d, len - 1);
      if Bit(bitmap, len - 1) {
        BitBelowLen(bitmap, len - 1);
      }
    }
  }

  /** The window update both databases perform for an older index that is still in the window. */
  method SetOld(bitmap: nat, diff: nat, mask: nat, ghost top: int) returns (window: nat)
    requires diff < BitLen(mask)
    ensures Bitmap(window, top, mask) == Bitmap(bitmap, top, mask).Add(top - diff)
    ensures BitLen(window) <= Max(BitLen(mask), BitLen(bitmap))
  {
    window := SetBit(bitmap, diff);
    Mark(bitmap, top, diff, mask);
  }

  lemma EmptyMarks(top: int)
    ensures Marks(0, top) == {}
  {
  }

  function Max(a: nat, b: nat): nat {
    if a < b then b else a
  }

  class RtpReplayDb {
    var index: nat
    var pendingRoc: Option<u32>
    var window: nat
    var windowMask: nat
    /** The largest size the window ever had. */
    ghost var widest: nat

    /** In particular the bitmap never has more significant bits than the widest window, or one. */
    ghost predicate Valid()
      reads this
    {
      && windowMask == Mask(BitLen(windowMask))
      && BitLen(windowMask) <= widest < 0x1_0000
      && BitLen(window) <= Max(1, widest)
    }

    ghost function View(): RtpIndex
      reads this
    {
      RtpIndex(Bitmap(window, index, windowMask), pendingRoc)
    }

    constructor (windowSize: u16)
      ensures Valid() && View() == NewRtpIndex(windowSize) && widest == windowSize
    {
      index := 0;
      pendingRoc := None;
      window := 0;
      windowMask := Shl(1, windowSize) - 1;
      widest := windowSize;
      BitLenOfMask(windowSize);
      EmptyMarks(0);
    }

    method EstimateIndex(seqNum: u16) returns (guessIndex: nat)
      ensures guessIndex == View().Estimate(seqNum)
    {
      if pendingRoc.Some? {
        return pendingRoc.value * 0x1_0000 + seqNum;
      }
      guessIndex := index / 0x1_0000 % 0x1_0000_0000 * 0x1_0000 + seqNum;
      if index > MAX_SEQ_NUM_STEP && guessIndex < index - MAX_SEQ_NUM_STEP {
        guessIndex := guessIndex + 0x1_0000;
      } else if guessIndex > index + MAX_SEQ_NUM_STEP && index >= 0x1_0000 {
        guessIndex := guessIndex - 0x1_0000;
      }
    }

    method GetRoc() returns (roc: u32)
      ensures roc == View().Roc()
    {
      roc := index / 0x1_0000 % 0x1_0000_0000;
    }

    method SetRoc(roc: u32)
      requires Valid()
      modifies this
      ensures Valid() && View() == old(View()).SetRoc(roc) && widest == old(widest)
    {
      pendingRoc := Some(roc);
    }

    method AddIndex(i: nat)
      requires Valid()
      modifies this
      ensures Valid() && View() == old(View()).Add(i) && widest == old(widest)
    {
      hide Bit, SetBit, Shl, And, BitLen, Mask, Marks;
      if i > index {
        var diff := i - index;
        window := Shift(window, diff, windowMask, index);
        index := i;
      } else {
        var diff := index - i;
        if diff < BitLen(windowMask) {
          window := SetOld(window, diff, windowMask, index);
        }
      }
      pendingRoc := None;
    }

    method SeenIndex(i: nat) returns (seen: bool)
      ensures seen <==> View().Seen(i)
    {
      InMarks(window, index, i);
      if i > index {
        seen := false;
      } else if index - i >= BitLen(windowMask) {
        seen := true;
      } else {
        seen := Bit(window, index - i);
      }
    }

    method SetWindowSize(size: u16)
      requires Valid()
      modifies this
      ensures Valid() && View() == old(View()).Resize(size) && widest == Max(old(widest), size)
    {
      windowMask := Shl(1, size) - 1;
      widest := Max(widest, size);
      BitLenOfMask(size);
    }
  }

  class RtcpReplayDb {
    var index: u31
    var window: nat
    var windowMask: nat
    /** The unbounded index that `index` is the 31 low bits of. */
    ghost var top: nat
    /** The largest size the window ever had. */
    ghost var widest: nat

    ghost predicate Valid()
      reads this
    {
      && index == top % RTCP_ROLLBACK
      && windowMask == Mask(BitLen(windowMask))
      && BitLen(windowMask) <= widest < 0x1_0000
      && BitLen(window) <= Max(1, widest)
    }

    ghost function View(): RtcpIndex
      reads this
    {
      RtcpIndex(Bitmap(window, top, windowMask))
    }

    constructor (windowSize: u16)
      ensures Valid() && View() == NewRtcpIndex(windowSize) && widest == windowSize
    {
      index := 0;
      window := 0;
      windowMask := Shl(1, windowSize) - 1;
      top := 0;
      widest := windowSize;
      BitLenOfMask(windowSize);
      EmptyMarks(0);
    }

    method AddIndex(i: u31)
      requires Valid()
      modifies this
      ensures Valid() && View() == old(View()).Add(i) && widest == old(widest)
    {
      hide Bit, SetBit, Shl, And, BitLen, Mask, Marks;
      ghost var u := Unwrap(top, i);
      assert u % RTCP_ROLLBACK == i by {
        UnwrapIsNearest(top, i, i);
      }
      if i > index {
        var diff := i - index;
        if diff >= MAX_RTCP_STEP {
          assert u == top - (RTCP_ROLLBACK - diff);
          if RTCP_ROLLBACK - diff < BitLen(windowMask) {
            window := SetOld(window, RTCP_ROLLBACK - diff, windowMask, top);
          }
        } else {
          assert u == top + diff;
          window := Shift(window, diff, windowMask, top);
          index := i;
          top := u;
        }
      } else {
        var diff := index - i;
        if diff < BitLen(windowMask) {
          assert u == top - diff;
          window := SetOld(window, diff, windowMask, top);
        }
        if diff >= MAX_RTCP_STEP {
          assert u == top + (RTCP_ROLLBACK - diff);
          assert BitLen(windowMask) <= diff;
          window := Shift(window, RTCP_ROLLBACK - diff, windowMask, top);
          index := i;
          top := u;
        }
      }
    }

    method SeenIndex(i: u31) returns (seen: bool)
      requires Valid()
      ensures seen <==> View().Seen(i)
    {
      InMarks(window, top, Unwrap(top, i));
      if i > index {
        var diff := i - index;
        if diff > MAX_RTCP_STEP {
          if RTCP_ROLLBACK - diff >= BitLen(windowMask) {
            seen := true;
          } else {
            seen := Bit(window, RTCP_ROLLBACK - diff);
          }
        } else {
          seen := false;
        }
      } else {
        var diff := index - i;
        if diff >= BitLen(windowMask) {
          if diff >= MAX_RTCP_STEP {
            seen := false;
          } else {
            seen := true;
          }
        } else {
          seen := Bit(window, diff);
        }
      }
    }

    method SetWindowSize(size: u16)
      requires Valid()
      modifies this
      ensures Valid() && View() == old(View()).Resize(size) && widest == Max(old(widest), size)
    {
      windowMask := Shl(1, size) - 1;
      widest := Max(widest, size);
      BitLenOfMask(size);
    }
  }
}
