/** What the RTP and RTCP index databases mean, over unbounded indexes. */
module ReplayIndex {
  import opened Types
  import opened SlidingWindow

  const MAX_SEQ_NUM_STEP: nat := 0x8000
  const ROC_STEP: nat := 0x1_0000
  const RTP_INDEX_LIMIT: nat := 0x1_0000_0000_0000
  const RTCP_ROLLBACK: nat := 0x8000_0000
  const MAX_RTCP_STEP: nat := 0x4000_0000

  // ---------------------------------------------------------------- RTP

  function RocOf(index: nat): u32 {
    index / ROC_STEP % 0x1_0000_0000
  }

  datatype RtpIndex = RtpIndex(window: Window, pendingRoc: Option<u32>) {
    ghost predicate Valid() {
      && window.top >= 0
      && window.size < 0x1_0000
    }

    /** RFC 3711, section 3.3.1: the index nearest to the newest one, unless a ROC is forced. */
    function Estimate(seqNum: u16): (index: nat)
      requires window.top >= 0
      ensures index % ROC_STEP == seqNum
      ensures index < RTP_INDEX_LIMIT + ROC_STEP
    {
      if pendingRoc.Some? then pendingRoc.value * ROC_STEP + seqNum
      else
        var guess := RocOf(window.top) * ROC_STEP + seqNum;
        if window.top > MAX_SEQ_NUM_STEP && guess < window.top - MAX_SEQ_NUM_STEP then guess + ROC_STEP
        else if guess > window.top + MAX_SEQ_NUM_STEP && window.top >= ROC_STEP then guess - ROC_STEP
        else guess
    }

    function Roc(): u32
      requires window.top >= 0
    {
      RocOf(window.top)
    }

    predicate Seen(index: nat) {
      window.Seen(index)
    }

    function Add(index: nat): RtpIndex {
      RtpIndex(window.Add(index), None)
    }

    function SetRoc(roc: u32): RtpIndex {
      this.(pendingRoc := Some(roc))
    }

    function Resize(size: nat): RtpIndex {
      this.(window := window.Resize(size))
    }

    /** Changing the size forgets no RTP index. */
    predicate ResizeSafe(size: nat) {
      window.ResizeSafeFrom(0, size)
    }
  }

  function NewRtpIndex(size: nat): RtpIndex {
    RtpIndex(Window(0, {}, size), None)
  }

  function Distance(a: int, b: int): nat {
    if a < b then b - a else a - b
  }

  /** No other index with the same sequence number is nearer to the newest one. */
  lemma EstimateIsNearest(r: RtpIndex, seqNum: u16, other: nat)
    requires 0 <= r.window.top < RTP_INDEX_LIMIT && r.pendingRoc.None?
    requires other % ROC_STEP == seqNum
    ensures Distance(r.Estimate(seqNum), r.window.top) <= Distance(other, r.window.top)
  {
    var e := r.Estimate(seqNum);
    var a, b := e / ROC_STEP, other / ROC_STEP;
    assert e == a * ROC_STEP + seqNum && other == b * ROC_STEP + seqNum;
  }

  /** Exactly which true indexes the receiver recovers from their sequence number alone. */
  lemma EstimateRecovers(r: RtpIndex, index: nat)
    requires 0 <= r.window.top < RTP_INDEX_LIMIT && r.pendingRoc.None?
    ensures r.Estimate(index % ROC_STEP) == index <==>
            || Distance(index, r.window.top) < MAX_SEQ_NUM_STEP
            || (&& index / ROC_STEP == r.window.top / ROC_STEP
                && (|| Distance(index, r.window.top) == MAX_SEQ_NUM_STEP
                    || (r.window.top < ROC_STEP && index > r.window.top)))
  {
    var t, seqNum := r.window.top, index % ROC_STEP;
    assert RocOf(t) == t / ROC_STEP;
    var a, b := index / ROC_STEP, t / ROC_STEP;
    assert index == a * ROC_STEP + seqNum;
    assert t == b * ROC_STEP + t % ROC_STEP;
  }

  /** The pseudocode of RFC 3711, Appendix A, except that ROC 0 is not lowered to 2^32 - 1. */
  function AppendixA(roc: u32, sl: u16, seqNum: u16): int {
    if sl < 0x8000 then
      if seqNum - sl > 0x8000 then (if roc == 0 then 0 else roc - 1) else roc
    else
      if sl - 0x8000 > seqNum then roc + 1 else roc
  }

  lemma EstimateIsAppendixA(r: RtpIndex, seqNum: u16)
    requires 0 <= r.window.top < RTP_INDEX_LIMIT && r.pendingRoc.None?
    ensures r.Estimate(seqNum) == AppendixA(r.Roc(), r.window.top % ROC_STEP, seqNum) * ROC_STEP + seqNum
  {
    assert r.window.top == r.Roc() * ROC_STEP + r.window.top % ROC_STEP;
  }

  // ---------------------------------------------------------------- RTCP

  /** The unbounded index that the cyclic index x stands for, next to the newest one. */
  function Unwrap(top: nat, x: u31): int {
    var c := top % RTCP_ROLLBACK;
    if x > c then
      if x - c >= MAX_RTCP_STEP then top + x - c - RTCP_ROLLBACK else top + x - c
    else
      if c - x >= MAX_RTCP_STEP then top + x - c + RTCP_ROLLBACK else top + x - c
  }

  /** The one cyclic index, half a turn ahead, that is looked up and recorded differently. */
  predicate BlindSpot(top: nat, x: u31) {
    x == top % RTCP_ROLLBACK + MAX_RTCP_STEP
  }

  datatype RtcpIndex = RtcpIndex(window: Window) {
    ghost predicate Valid() {
      && window.top >= 0
      && window.size < 0x1_0000
    }

    predicate Seen(x: u31)
      requires window.top >= 0
    {
      window.Seen(Unwrap(window.top, x)) && !BlindSpot(window.top, x)
    }

    function Add(x: u31): RtcpIndex
      requires window.top >= 0
    {
      RtcpIndex(window.Add(Unwrap(window.top, x)))
    }

    function Resize(size: nat): RtcpIndex {
      RtcpIndex(window.Resize(size))
    }
  }

  function NewRtcpIndex(size: nat): RtcpIndex {
    RtcpIndex(Window(0, {}, size))
  }

  /** Unwrapping is a right inverse of the cyclic reduction and picks the nearest candidate. */
  lemma UnwrapIsNearest(top: nat, x: u31, other: int)
    requires other % RTCP_ROLLBACK == x
    ensures Unwrap(top, x) % RTCP_ROLLBACK == x
    ensures Distance(Unwrap(top, x), top) <= Distance(other, top)
  {
    var a, b := top / RTCP_ROLLBACK, other / RTCP_ROLLBACK;
    assert top == a * RTCP_ROLLBACK + top % RTCP_ROLLBACK;
    assert other == b * RTCP_ROLLBACK + x;
    var u := Unwrap(top, x);
    assert u == a * RTCP_ROLLBACK + x || u == (a - 1) * RTCP_ROLLBACK + x || u == (a + 1) * RTCP_ROLLBACK + x;
  }

  /** Every true index less than half a turn away is recovered, across any number of rollovers. */
  lemma UnwrapRecovers(top: nat, index: int)
    requires Distance(index, top) < MAX_RTCP_STEP
    ensures Unwrap(top, index % RTCP_ROLLBACK) == index
  {
    var x := index % RTCP_ROLLBACK;
    var a, b := top / RTCP_ROLLBACK, index / RTCP_ROLLBACK;
    assert top == a * RTCP_ROLLBACK + top % RTCP_ROLLBACK;
    assert index == b * RTCP_ROLLBACK + x;
  }

  /** An accepted index is refused right afterwards if and only if it was not in the blind spot. */
  lemma RtcpReplayRefusedIff(r: RtcpIndex, x: u31)
    requires r.Valid() && !r.Seen(x)
    ensures r.Add(x).Seen(x) <==> !BlindSpot(r.window.top, x)
  {
    var top := r.window.top;
    var u := Unwrap(top, x);
    UnwrapIsNearest(top, x, x);
    AddKeepsSeen(r.window, u, u);
    if u > top {
      assert u % RTCP_ROLLBACK == x;
      assert Unwrap(u, x) == u;
    }
  }

  /** The database after recording the cyclic indexes xs, and what that asks of an unbounded window. */
  function AddAll(r: RtcpIndex, xs: seq<u31>): (r': RtcpIndex)
    requires r.window.top >= 0
    ensures r'.window.top >= 0
  {
    if xs == [] then r else AddAll(r, xs[..|xs| - 1]).Add(xs[|xs| - 1])
  }

  function UnwrappedOps(r: RtcpIndex, xs: seq<u31>): seq<Op>
    requires r.window.top >= 0
  {
    if xs == [] then []
    else
      var n := |xs| - 1;
      UnwrappedOps(r, xs[..n]) + [AddIndex(Unwrap(AddAll(r, xs[..n]).window.top, xs[n]))]
  }

  lemma {:induction false} AddAllIsRun(r: RtcpIndex, xs: seq<u31>)
    requires r.window.top >= 0
    ensures AddAll(r, xs).window == Run(r.window, UnwrappedOps(r, xs))
    ensures forall op | op in UnwrappedOps(r, xs) :: op.AddIndex?
  {
    hide Unwrap, Window.Add;
    if xs != [] {
      var n, ops := |xs| - 1, UnwrappedOps(r, xs);
      AddAllIsRun(r, xs[..n]);
      assert ops[..|ops| - 1] == UnwrappedOps(r, xs[..n]);
    }
  }

  /**
   The cyclic database refines an unbounded sliding window over any number of rollovers: outside
   the blind spot an index is refused exactly when, unwrapped, it is not ahead of the newest one
   and is either too old or was recorded before.
   */
  lemma RtcpIsHistory(r: RtcpIndex, xs: seq<u31>, x: u31)
    requires r.window.top >= 0 && r.window.marks == {}
    ensures var v := AddAll(r, xs);
            var u := Unwrap(v.window.top, x);
            v.Seen(x) <==>
              && !BlindSpot(v.window.top, x)
              && u <= v.window.top
              && (v.window.top - u >= v.window.size || u in Added(UnwrappedOps(r, xs)))
  {
    hide Unwrap, BlindSpot, Window.Seen;
    AddAllIsRun(r, xs);
    var ops := UnwrappedOps(r, xs);
    assert forall k | 0 <= k < |ops| :: ops[k] in ops;
    var u := Unwrap(AddAll(r, xs).window.top, x);
    WindowIsHistory(r.window, u, ops, u);
  }

  /**
   The unbounded indexes accepted along a run that is offered the cyclic indexes xs, and whether
   each was in the blind spot.
   */
  function Accepted(r: RtcpIndex, xs: seq<u31>): seq<(int, bool)>
    requires r.window.top >= 0
    decreases |xs|
  {
    if xs == [] then []
    else if r.Seen(xs[0]) then Accepted(r, xs[1..])
    else [(Unwrap(r.window.top, xs[0]), BlindSpot(r.window.top, xs[0]))] + Accepted(r.Add(xs[0]), xs[1..])
  }

  /** Outside the blind spot, nothing is accepted that came earlier in the sequence. */
  ghost predicate OnceUnlessBlind(accepted: seq<(int, bool)>) {
    forall i, j | 0 <= i < j < |accepted| :: accepted[i].0 == accepted[j].0 ==> accepted[j].1
  }

  ghost predicate Distinct<T>(s: seq<T>) {
    forall i, j | 0 <= i < j < |s| :: s[i] != s[j]
  }

  /**
   No unbounded SRTCP index is accepted again, however often the 31-bit counter rolls over, unless
   it is in the blind spot at that moment.
   */
  lemma {:induction false} RtcpAcceptedOnce(r: RtcpIndex, xs: seq<u31>)
    requires r.window.top >= 0
    ensures OnceUnlessBlind(Accepted(r, xs))
    ensures forall a | a in Accepted(r, xs) && !a.1 :: !r.window.Seen(a.0)
    decreases |xs|
  {
    hide Unwrap, BlindSpot;
    if xs != [] {
      if r.Seen(xs[0]) {
        RtcpAcceptedOnce(r, xs[1..]);
      } else {
        var u := Unwrap(r.window.top, xs[0]);
        var rest := Accepted(r.Add(xs[0]), xs[1..]);
        RtcpAcceptedOnce(r.Add(xs[0]), xs[1..]);
        forall a | a in rest && !a.1
          ensures a.0 != u && !r.window.Seen(a.0)
        {
          if a.0 == u || r.window.Seen(a.0) {
            AddKeepsSeen(r.window, u, a.0);
          }
        }
      }
    }
  }

  /** What the blind spot accepts leaves no trace, so it is accepted again. */
  lemma BlindSpotLeavesNoTrace(r: RtcpIndex, x: u31)
    requires r.Valid() && BlindSpot(r.window.top, x)
    ensures !r.Seen(x) && r.Add(x) == r
  {
  }

  /** In the blind spot the same packet index is accepted twice, from the very first packet on. */
  lemma RtcpBlindSpotRepeats(size: nat)
    requires size <= MAX_RTCP_STEP
    ensures var a := Accepted(NewRtcpIndex(size), [MAX_RTCP_STEP as u31, MAX_RTCP_STEP]);
            |a| == 2 && a[0] == a[1] == (-0x4000_0000, true)
  {
    var r := NewRtcpIndex(size);
    var x: u31 := MAX_RTCP_STEP;
    assert r.Add(x) == r;
    assert [x, x][1..] == [x];
    assert Accepted(r, [x, x]) == [(Unwrap(0, x), true)] + Accepted(r, [x]);
    assert Accepted(r, [x]) == [(Unwrap(0, x), true)] + Accepted(r, [x][1..]);
  }
}
