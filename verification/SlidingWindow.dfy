/**
 Replay protection as RFC 3711 section 3.3.2 describes it: a highest index, a size, and the set
 of indexes remembered inside the window.  The bitmaps of module Replay refine this.
 */
module SlidingWindow {
  datatype Window = Window(top: int, marks: set<int>, size: nat) {
    /** An index is refused when it is remembered, or older than the window. */
    predicate Seen(i: int) {
      i <= top && (top - i >= size || i in marks)
    }

    function Add(i: int): Window {
      if i > top then Window(i, (set j | j in marks && i - j < size) + {i}, size)
      else if top - i < size then this.(marks := marks + {i})
      else this
    }

    function Resize(n: nat): Window {
      this.(size := n)
    }

    /** Changing the size to n uncovers no index from `low` on whose mark is already lost. */
    predicate ResizeSafeFrom(low: int, n: nat) {
      forall i | low <= i && top - n < i <= top - size :: i in marks
    }

    /** The same for indexes of either sign. */
    predicate ResizeSafe(n: nat) {
      ResizeSafeFrom(top - n, n)
    }
  }

  datatype Op = AddIndex(i: int) | SetSize(n: nat)

  function Step(w: Window, op: Op): Window {
    match op
    case AddIndex(i) => w.Add(i)
    case SetSize(n) => w.Resize(n)
  }

  function Run(w: Window, ops: seq<Op>): Window {
    if ops == [] then w else Step(Run(w, ops[..|ops| - 1]), ops[|ops| - 1])
  }

  function Added(ops: seq<Op>): set<int> {
    set op | op in ops && op.AddIndex? :: op.i
  }

  /** Every change of size in the run is safe, for indexes from `low` on, at the moment it happens. */
  ghost predicate SafeRun(w: Window, low: int, ops: seq<Op>) {
    forall k | 0 <= k < |ops| :: ops[k].SetSize? ==> Run(w, ops[..k]).ResizeSafeFrom(low, ops[k].n)
  }

  lemma AddKeepsSeen(w: Window, i: int, j: int)
    requires w.Seen(j) || j == i
    ensures w.Add(i).Seen(j)
  {
    if i > w.top && j < i && i - j < w.size {
      assert w.top - j < w.size;
    }
  }

  /** Exactly what one more index changes: it is seen, and so is all it pushes out. */
  lemma SeenAfterAdd(w: Window, i: int, j: int)
    requires forall m | m in w.marks :: m <= w.top
    ensures w.Add(i).Seen(j) <==> w.Seen(j) || j == i || (i > w.top && i - j >= w.size)
  {
    if w.Seen(j) {
      AddKeepsSeen(w, i, j);
    }
  }

  /** Among the indexes from `low` on, changing the size forgets none if and only if it is safe. */
  lemma ResizeKeepsSeen(w: Window, low: int, n: nat)
    ensures (forall i | low <= i && w.Seen(i) :: w.Resize(n).Seen(i)) <==> w.ResizeSafeFrom(low, n)
  {
    if forall i | low <= i && w.Seen(i) :: w.Resize(n).Seen(i) {
      forall i | low <= i && w.top - n < i <= w.top - w.size
        ensures i in w.marks
      {
        assert w.Seen(i);
      }
    }
  }

  /** A size that does not grow is safe, and so is any size while no index has left the window. */
  lemma SafeSizes(w: Window, low: int, n: nat)
    requires n <= w.size || w.top - w.size < low
    ensures w.ResizeSafeFrom(low, n)
  {
  }

  lemma {:induction false} RunInvariant(w: Window, low: int, ops: seq<Op>)
    requires w.marks == {} && SafeRun(w, low, ops)
    ensures Run(w, ops).marks <= Added(ops)
    ensures forall i | i in Added(ops) && low <= i :: Run(w, ops).Seen(i)
  {
    if ops != [] {
      var n := |ops| - 1;
      var before, op := ops[..n], ops[n];
      assert ops == before + [op];
      assert SafeRun(w, low, before) by {
        forall k | 0 <= k < |before|
          ensures before[k].SetSize? ==> Run(w, before[..k]).ResizeSafeFrom(low, before[k].n)
        {
          assert before[..k] == ops[..k];
          assert before[k] == ops[k];
        }
      }
      RunInvariant(w, low, before);
      assert Added(ops) == Added(before) + if op.AddIndex? then {op.i} else {};
      var v := Run(w, before);
      match op {
        case AddIndex(i) =>
          forall j | j in Added(ops) && low <= j
            ensures v.Add(i).Seen(j)
          {
            AddKeepsSeen(v, i, j);
          }
        case SetSize(m) =>
          assert v.ResizeSafeFrom(low, m);
          ResizeKeepsSeen(v, low, m);
      }
    }
  }

  /**
   The window refines the set of all indexes ever added: an index is refused exactly when it is
   not ahead of the newest one and is either too old or was added before.
   */
  lemma WindowIsHistory(w: Window, low: int, ops: seq<Op>, i: int)
    requires w.marks == {} && low <= i && SafeRun(w, low, ops)
    ensures var v := Run(w, ops);
            v.Seen(i) <==> i <= v.top && (v.top - i >= v.size || i in Added(ops))
  {
    RunInvariant(w, low, ops);
  }

  /** Growing a window of one slot to three after two steps re-admits an index already added. */
  lemma EnlargingForgets()
    ensures var v := Run(Window(0, {}, 1), [AddIndex(5), AddIndex(6), SetSize(3)]);
            5 in Added([AddIndex(5), AddIndex(6), SetSize(3)]) && !v.Seen(5)
  {
    var ops := [AddIndex(5), AddIndex(6), SetSize(3)];
    assert ops[0] == AddIndex(5) && ops[0] in ops;
    assert ops[..2] == [AddIndex(5), AddIndex(6)];
    assert ops[..2][..1] == [AddIndex(5)] && ops[..2][..1][..0] == [];
    assert Run(Window(0, {}, 1), []) == Window(0, {}, 1);
    assert Run(Window(0, {}, 1), [AddIndex(5)]) == Window(0, {}, 1).Add(5);
    assert Run(Window(0, {}, 1), ops[..2]) == Window(0, {}, 1).Add(5).Add(6);
  }
}
