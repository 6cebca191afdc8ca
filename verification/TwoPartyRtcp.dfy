/** The same two parties exchanging SRTCP, whose 31-bit index rolls over. */
module TwoPartyRtcp {
  import opened Types
  import opened Crypto
  import opened Header
  import opened SlidingWindow
  import opened ReplayIndex
  import opened Transform
  import opened StreamConfig
  import opened StreamSpec
  import opened TwoParty
  import StreamRuns

  datatype SentRtcp = SentRtcp(mki: Mki, plain: Bytes, packet: Bytes)

  /**
   `wire` is all that was sent, so that the unbounded index of a packet is its place there;
   `accepted` is which of it the receiver took, and what it got.
   */
  datatype RtcpSystem = RtcpSystem(
    sender: Stream, receiver: Stream, wire: seq<SentRtcp>, accepted: seq<(nat, Bytes)>)
  {
    ghost predicate Valid() {
      sender.Valid() && receiver.Valid() && sender.side.Sending? && receiver.side.Receiving?
    }
  }

  function ActRtcp(cs: Suite, y: RtcpSystem, a: Action): RtcpSystem
    requires y.Valid()
  {
    match a
    case Send(plain, mki) =>
      if ParseRtcp(plain).Err? then y
      else
        var (s, r) := SendRtcp(cs, y.sender, ParseRtcp(plain).value, plain, mki);
        if r.Err? then y else y.(sender := s, wire := y.wire + [SentRtcp(mki, plain, r.value)])
    case Deliver(k) =>
      if k >= |y.wire| || ParseRtcp(y.wire[k].packet).Err? then y
      else
        var (s, r) := ReceiveRtcp(cs, y.receiver, ParseRtcp(y.wire[k].packet).value, y.wire[k].packet);
        if r.Err? then y.(receiver := s)
        else y.(receiver := s, accepted := y.accepted + [(k, r.value)])
    case RekeySender(c, order) => y.(sender := Rekeyed(cs, y.sender, c, order))
    case RekeyReceiver(c, order) => y.(receiver := Rekeyed(cs, y.receiver, c, order))
  }

  /**
   What is delivered is less than 2^30 away from the newest index the receiver has; a re-keying
   takes its keys from the ring, and forgets no index of the receiver.
   */
  ghost predicate FairRtcp(cs: Suite, ring: KeyRing, y: RtcpSystem, a: Action)
    requires y.receiver.side.Receiving?
  {
    match a
    case Send(_, _) => true
    case Deliver(k) => k < |y.wire| ==> Distance(k, y.receiver.side.rtcp.window.top) < MAX_RTCP_STEP
    case RekeySender(c, _) => OnRing(cs, ring, c)
    case RekeyReceiver(c, _) =>
      OnRing(cs, ring, c) && y.receiver.side.rtcp.window.ResizeSafeFrom(0, c.replayWindowSize)
  }

  /** Made from its plaintext by the key of its MKI, under the 31 low bits of its index. */
  ghost predicate GenuineRtcp(cs: Suite, ring: KeyRing, p: SentRtcp, index: nat) {
    && p.mki in ring && ring[p.mki].Valid()
    && ParseRtcp(p.plain).Ok?
    && ring[p.mki].RtcpProtected(cs, p.plain, ParseRtcp(p.plain).value, index % RTCP_ROLLBACK) == Ok(p.packet)
  }

  function HighestOf(accepted: seq<(nat, Bytes)>): nat {
    if accepted == [] then 0
    else
      var before, last := HighestOf(accepted[..|accepted| - 1]), accepted[|accepted| - 1].0;
      if last > before then last else before
  }

  ghost predicate LinkedRtcp(cs: Suite, ring: KeyRing, y: RtcpSystem) {
    && y.Valid()
    && y.sender.side.rtcpIndex == |y.wire| % RTCP_ROLLBACK
    && Holds(ring, y.sender.base.transforms) && Holds(ring, y.receiver.base.transforms) && Hears(ring, y.receiver)
    && (forall k | 0 <= k < |y.wire| :: GenuineRtcp(cs, ring, y.wire[k], k))
  }

  ghost predicate FaithfulRtcp(y: RtcpSystem)
    requires y.receiver.side.Receiving?
  {
    && (forall a | a in y.accepted ::
          a.0 < |y.wire| && a.1 == y.wire[a.0].plain && y.receiver.side.rtcp.window.Seen(a.0))
    && (forall i, j | 0 <= i < j < |y.accepted| :: y.accepted[i].0 != y.accepted[j].0)
    && HighestOf(y.accepted) == y.receiver.side.rtcp.window.top
  }

  lemma ActRtcpValid(cs: Suite, y: RtcpSystem, a: Action)
    requires y.Valid()
    ensures ActRtcp(cs, y, a).Valid()
  {
    hide ParseRtcp, SendRtcp, ReceiveRtcp, Update, Base.Valid, StreamConfig.Valid;
    match a
    case Send(plain, mki) =>
      if ParseRtcp(plain).Ok? {
        StreamRuns.StepValid(cs, y.sender, StreamRuns.ProtectRtcp(ParseRtcp(plain).value, plain, mki));
      }
    case Deliver(k) =>
      if k < |y.wire| && ParseRtcp(y.wire[k].packet).Ok? {
        StreamRuns.StepValid(cs, y.receiver,
          StreamRuns.UnprotectRtcp(ParseRtcp(y.wire[k].packet).value, y.wire[k].packet));
      }
    case RekeySender(c, order) => StreamRuns.StepValid(cs, y.sender, StreamRuns.Rekey(c, order));
    case RekeyReceiver(c, order) => StreamRuns.StepValid(cs, y.receiver, StreamRuns.Rekey(c, order));
  }

  /** A packet that was sent is genuine, and all the sender changes is its counter and a life. */
  lemma SendRtcpEffect(cs: Suite, ring: KeyRing, y: RtcpSystem, a: Action)
    requires y.Valid() && a.Send? && ActRtcp(cs, y, a) != y && y.sender.side.rtcpIndex == |y.wire| % RTCP_ROLLBACK
    requires Holds(ring, y.sender.base.transforms)
    ensures var y', n := ActRtcp(cs, y, a), |y.wire|;
            && |y'.wire| == n + 1
            && y' == y.(sender := y'.sender, wire := y.wire + [y'.wire[n]])
            && GenuineRtcp(cs, ring, y'.wire[n], n)
            && y'.sender.side == Sending((y.sender.side.rtcpIndex + 1) % RTCP_ROLLBACK)
            && Holds(ring, y'.sender.base.transforms)
  {
    hide ParseRtcp, Transform.RtcpProtected, Transform.Valid, Base.Spend;
  }

  lemma SendRtcpStep(cs: Suite, ring: KeyRing, y: RtcpSystem, a: Action)
    requires LinkedRtcp(cs, ring, y) && FaithfulRtcp(y) && a.Send?
    ensures LinkedRtcp(cs, ring, ActRtcp(cs, y, a)) && FaithfulRtcp(ActRtcp(cs, y, a))
  {
    hide ActRtcp, GenuineRtcp, Holds, Hears, Stream.Valid;
    var y', n := ActRtcp(cs, y, a), |y.wire|;
    ActRtcpValid(cs, y, a);
    if y' != y {
      SendRtcpEffect(cs, ring, y, a);
      NextIndex(n);
      assert forall k | 0 <= k < n :: y'.wire[k] == y.wire[k];
    }
  }

  lemma NextIndex(n: nat)
    ensures (n % RTCP_ROLLBACK + 1) % RTCP_ROLLBACK == (n + 1) % RTCP_ROLLBACK
  {
  }

  /** An index less than 2^30 away is looked up and recorded as the unbounded one. */
  lemma NearIndex(r: RtcpIndex, k: nat)
    requires r.window.top >= 0 && Distance(k, r.window.top) < MAX_RTCP_STEP
    ensures r.Seen(k % RTCP_ROLLBACK) <==> r.window.Seen(k)
    ensures r.Add(k % RTCP_ROLLBACK) == RtcpIndex(r.window.Add(k))
  {
    hide Window.Add, Window.Seen;
    UnwrapRecovers(r.window.top, k);
  }

  /** Without an MKI in the packet and a key for that, nothing is accepted. */
  lemma NothingHeardRtcp(cs: Suite, r: Stream, h: RtcpHeader, packet: Bytes)
    requires r.Valid() && r.side.Receiving? && r.base.mkiLen == 0 && None !in r.base.transforms
    ensures ReceiveRtcp(cs, r, h, packet).1.Err?
  {
    hide RtcpIndexOf, RtcpIndex.Seen, Transform.RtcpUnprotected;
  }

  /** What a delivery near enough does: nothing, or the one packet accepted for what it is. */
  lemma DeliverRtcpEffect(cs: Suite, ring: KeyRing, y: RtcpSystem, k: nat)
    requires LinkedRtcp(cs, ring, y) && FairRtcp(cs, ring, y, Deliver(k)) && k < |y.wire|
    ensures var y' := ActRtcp(cs, y, Deliver(k));
            y' == y || (
              && !y.receiver.side.rtcp.window.Seen(k)
              && y' == y.(receiver := y'.receiver, accepted := y.accepted + [(k, y.wire[k].plain)])
              && y'.receiver.side == y.receiver.side.(rtcp := RtcpIndex(y.receiver.side.rtcp.window.Add(k)))
              && y'.receiver.base.mkiLen == y.receiver.base.mkiLen
              && Holds(ring, y'.receiver.base.transforms))
  {
    hide ParseRtcp, Transform.RtcpProtected, Transform.Valid, Base.Spend, ReceiveRtcp, RtcpIndex.Seen, RtcpIndex.Add,
         Window.Add, Window.Seen, RtcpIndexOf;
    var p := y.wire[k];
    assert GenuineRtcp(cs, ring, p, k);
    if y.receiver.base.mkiLen == 0 && None !in ring {
      if ParseRtcp(p.packet).Ok? {
        NothingHeardRtcp(cs, y.receiver, ParseRtcp(p.packet).value, p.packet);
      }
    } else {
      RtcpDelivered(cs, y.receiver, p.mki, ring[p.mki], p.plain, p.packet, k % RTCP_ROLLBACK);
      NearIndex(y.receiver.side.rtcp, k);
    }
  }

  lemma DeliverRtcpStep(cs: Suite, ring: KeyRing, y: RtcpSystem, k: nat)
    requires LinkedRtcp(cs, ring, y) && FaithfulRtcp(y) && FairRtcp(cs, ring, y, Deliver(k))
    ensures LinkedRtcp(cs, ring, ActRtcp(cs, y, Deliver(k))) && FaithfulRtcp(ActRtcp(cs, y, Deliver(k)))
  {
    hide GenuineRtcp, Holds, Stream.Valid, ReceiveRtcp, ParseRtcp, Transform.Valid, Window.Seen, Window.Add;
    if k < |y.wire| {
      ActRtcpValid(cs, y, Deliver(k));
      DeliverRtcpEffect(cs, ring, y, k);
      hide ActRtcp;
      var y' := ActRtcp(cs, y, Deliver(k));
      if y' != y {
        AcceptRtcpStep(y, y', k);
      }
    }
  }

  lemma RekeyRtcpStep(cs: Suite, ring: KeyRing, y: RtcpSystem, a: Action)
    requires LinkedRtcp(cs, ring, y) && FaithfulRtcp(y) && (a.RekeySender? || a.RekeyReceiver?)
    requires FairRtcp(cs, ring, y, a)
    ensures LinkedRtcp(cs, ring, ActRtcp(cs, y, a)) && FaithfulRtcp(ActRtcp(cs, y, a))
  {
    hide Update, GenuineRtcp, Holds, OnRing, Stream.Valid, StreamConfig.Valid, Hears, Window.Seen;
    var y', c := ActRtcp(cs, y, a), a.config;
    if c.Valid() && SaltsFit(c) {
      RekeyHolds(cs, ring, if a.RekeySender? then y.sender else y.receiver, c, a.order);
      if a.RekeyReceiver? {
        HearsTheSame(ring, y.receiver, y'.receiver);
        ResizeKeepsSeen(y.receiver.side.rtcp.window, 0, c.replayWindowSize);
      }
    }
  }

  lemma AcceptRtcpStep(y: RtcpSystem, y': RtcpSystem, k: nat)
    requires y.Valid() && FaithfulRtcp(y) && k < |y.wire| && !y.receiver.side.rtcp.window.Seen(k)
    requires y' == y.(receiver := y'.receiver, accepted := y.accepted + [(k, y.wire[k].plain)])
    requires y'.receiver.side == y.receiver.side.(rtcp := RtcpIndex(y.receiver.side.rtcp.window.Add(k)))
    ensures FaithfulRtcp(y')
  {
    hide Stream.Valid;
    forall a | a in y'.accepted
      ensures a.0 < |y.wire| && a.1 == y.wire[a.0].plain && y'.receiver.side.rtcp.window.Seen(a.0)
    {
      AddKeepsSeen(y.receiver.side.rtcp.window, k, a.0);
    }
    assert y'.accepted[..|y.accepted|] == y.accepted;
    forall j | 0 <= j < |y.accepted|
      ensures y.accepted[j].0 != k
    {
      assert y.accepted[j] in y.accepted;
    }
  }

  function RunRtcp(cs: Suite, y: RtcpSystem, actions: seq<Action>): (r: RtcpSystem)
    requires y.Valid()
    ensures r.Valid()
    decreases |actions|
  {
    if actions == [] then y
    else
      ActRtcpValid(cs, y, actions[0]);
      RunRtcp(cs, ActRtcp(cs, y, actions[0]), actions[1..])
  }

  ghost predicate FairRtcpRun(cs: Suite, ring: KeyRing, y: RtcpSystem, actions: seq<Action>)
    requires y.Valid()
    decreases |actions|
  {
    actions != [] ==>
      && FairRtcp(cs, ring, y, actions[0])
      && (ActRtcpValid(cs, y, actions[0]); FairRtcpRun(cs, ring, ActRtcp(cs, y, actions[0]), actions[1..]))
  }

  lemma {:induction false} RunRtcpFaithful(cs: Suite, ring: KeyRing, y: RtcpSystem, actions: seq<Action>)
    requires LinkedRtcp(cs, ring, y) && FaithfulRtcp(y) && FairRtcpRun(cs, ring, y, actions)
    ensures LinkedRtcp(cs, ring, RunRtcp(cs, y, actions)) && FaithfulRtcp(RunRtcp(cs, y, actions))
    decreases |actions|
  {
    hide FaithfulRtcp, ActRtcp, FairRtcp;
    if actions != [] {
      var a := actions[0];
      ActRtcpValid(cs, y, a);
      match a {
        case Send(_, _) => SendRtcpStep(cs, ring, y, a);
        case Deliver(k) => DeliverRtcpStep(cs, ring, y, k);
        case RekeySender(_, _) => RekeyRtcpStep(cs, ring, y, a);
        case RekeyReceiver(_, _) => RekeyRtcpStep(cs, ring, y, a);
      }
      RunRtcpFaithful(cs, ring, ActRtcp(cs, y, a), actions[1..]);
    }
  }

  function FreshRtcp(s: Stream, r: Stream): RtcpSystem {
    RtcpSystem(s, r, [], [])
  }

  lemma FreshRtcpLinked(cs: Suite, ring: KeyRing, ssrc: u32, c: StreamConfig)
    requires c.Valid() && SaltsFit(c) && Transforms(cs, c).Ok? && c.keys != []
    requires OnRing(cs, ring, c) && RingFits(ring, c)
    ensures NewStream(cs, Sender, ssrc, c).Ok? && NewStream(cs, Receiver, ssrc, c).Ok?
    ensures var y := FreshRtcp(NewStream(cs, Sender, ssrc, c).value, NewStream(cs, Receiver, ssrc, c).value);
            LinkedRtcp(cs, ring, y) && FaithfulRtcp(y)
  {
    hide StreamConfig.Valid, Transforms, Transform.Valid, GoodEntry;
    NewStreamValid(cs, Sender, ssrc, c);
    NewStreamValid(cs, Receiver, ssrc, c);
  }

  /**
   End to end for SRTCP, however often the index rolls over: whatever is sent, lost, repeated or
   reordered, and however the two parties are re-keyed, everything the receiver accepts is, byte
   for byte, the packet that was sent; none is accepted twice; and the newest index of the receiver
   is the highest one accepted.
   */
  lemma RtcpEndToEnd(cs: Suite, ring: KeyRing, ssrc: u32, c: StreamConfig, actions: seq<Action>)
    requires c.Valid() && SaltsFit(c) && Transforms(cs, c).Ok? && c.keys != []
    requires OnRing(cs, ring, c) && RingFits(ring, c)
    ensures NewStream(cs, Sender, ssrc, c).Ok? && NewStream(cs, Receiver, ssrc, c).Ok?
    ensures var y := FreshRtcp(NewStream(cs, Sender, ssrc, c).value, NewStream(cs, Receiver, ssrc, c).value);
            && y.Valid()
            && (FairRtcpRun(cs, ring, y, actions) ==>
                  var r := RunRtcp(cs, y, actions);
                  && (forall a | a in r.accepted :: a.0 < |r.wire| && a.1 == r.wire[a.0].plain)
                  && (forall i, j | 0 <= i < j < |r.accepted| :: r.accepted[i].0 != r.accepted[j].0)
                  && HighestOf(r.accepted) == r.receiver.side.rtcp.window.top)
  {
    hide Transforms, StreamConfig.Valid, NewStream, RunRtcp, FairRtcpRun, OnRing, RingFits;
    FreshRtcpLinked(cs, ring, ssrc, c);
    var y := FreshRtcp(NewStream(cs, Sender, ssrc, c).value, NewStream(cs, Receiver, ssrc, c).value);
    if FairRtcpRun(cs, ring, y, actions) {
      RunRtcpFaithful(cs, ring, y, actions);
    }
  }

  /** In particular for every configuration that can be built, with no keys but its own. */
  lemma RtcpEndToEndOwnKeys(cs: Suite, ssrc: u32, c: StreamConfig, actions: seq<Action>)
    requires c.Valid() && SaltsFit(c) && Transforms(cs, c).Ok?
    ensures NewStream(cs, Sender, ssrc, c).Ok? && NewStream(cs, Receiver, ssrc, c).Ok?
    ensures var y := FreshRtcp(NewStream(cs, Sender, ssrc, c).value, NewStream(cs, Receiver, ssrc, c).value);
            && y.Valid()
            && (FairRtcpRun(cs, OwnRing(cs, c), y, actions) ==>
                  var r := RunRtcp(cs, y, actions);
                  && (forall a | a in r.accepted :: a.0 < |r.wire| && a.1 == r.wire[a.0].plain)
                  && (forall i, j | 0 <= i < j < |r.accepted| :: r.accepted[i].0 != r.accepted[j].0)
                  && HighestOf(r.accepted) == r.receiver.side.rtcp.window.top)
  {
    ValidNonEmpty(c);
    hide Transforms, StreamConfig.Valid, NewStream, RunRtcp, FairRtcpRun, OnRing, RingFits, OwnRing;
    OwnRingFits(cs, c);
    RtcpEndToEnd(cs, OwnRing(cs, c), ssrc, c, actions);
  }
}
