/** A sender and a receiver whose configurations agree, and a network that loses, repeats and reorders. */
module TwoParty {
  import opened Types
  import opened Crypto
  import opened Header
  import opened SlidingWindow
  import opened ReplayIndex
  import opened Trailer
  import opened Transform
  import opened StreamConfig
  import opened StreamSpec
  import StreamRuns

  // ---- one packet, from stream to stream ----

  /** The receiver can tell this MKI from a packet: absent when none is used, or of the agreed length. */
  predicate MkiReadable(r: Stream, mki: Mki) {
    if r.base.mkiLen == 0 then mki == None else mki.Some? && |mki.value| == r.base.mkiLen
  }

  /** Packets protected by this transform have their MKI where this receiver looks for it. */
  predicate Readable(r: Stream, mki: Mki, t: Transform) {
    && r.side.Receiving?
    && t.Valid() && t.Mki() == mki && MkiReadable(r, mki)
    && r.side.rtpTagLen == t.RtpTagLen() && r.side.rtcpTagLen == t.RtcpTagLen()
  }

  /** Moreover, when the receiver has a key of this MKI, it is this one. */
  predicate Agrees(r: Stream, mki: Mki, t: Transform) {
    Readable(r, mki, t) && (mki in r.base.transforms ==> r.base.transforms[mki].transform == t)
  }

  /** Protection keeps the header, and the receiver finds the MKI again. */
  lemma RtpPacketReadable(cs: Suite, r: Stream, mki: Mki, t: Transform, plain: Bytes, packet: Bytes, roc: u32)
    requires Readable(r, mki, t) && ParseRtp(plain).Ok?
    requires t.RtpProtected(cs, plain, ParseRtp(plain).value, roc) == Ok(packet)
    ensures ParseRtp(packet) == ParseRtp(plain)
    ensures r.GetMki(packet, ParseRtp(plain).value.len, true) == Ok(mki)
  {
    hide Transform.RtpProtected, ParseRtp, Transform.RtpTagLen, Transform.RtpExpansion, Transform.Mki;
    var h := ParseRtp(plain).value;
    RtpLengths(cs, t, plain, packet, h, roc);
    ExpansionCoversTag(t);
    ParseRtpLocal(plain, packet);
  }

  /**
   What the receiver does with a packet the sender protected under index `i`, when `i` is less than
   2^15 away from its own: it recovers the index, refuses it if seen, and otherwise obtains
   exactly the bytes that were sent.
   */
  lemma RtpDelivered(cs: Suite, r: Stream, mki: Mki, t: Transform, plain: Bytes, packet: Bytes, i: nat)
    requires r.Valid() && Agrees(r, mki, t) && ParseRtp(plain).Ok?
    requires i % ROC_STEP == ParseRtp(plain).value.seqNum
    requires t.RtpProtected(cs, plain, ParseRtp(plain).value, RocOf(i)) == Ok(packet)
    requires r.base.rtp.pendingRoc.None? && r.base.rtp.window.top < RTP_INDEX_LIMIT
    requires Distance(i, r.base.rtp.window.top) < MAX_SEQ_NUM_STEP
    ensures ParseRtp(packet) == ParseRtp(plain)
    ensures var (r', result) := ReceiveRtp(cs, r, ParseRtp(plain).value, packet);
            if r.base.rtp.Seen(i) then result == Err(InvalidPacketIndex)
            else if mki !in r.base.transforms then result == Err(InvalidMki)
            else if r.base.Left(true, mki) == 0 then result == Err(KeyLimit(true, true, mki, r.base.ssrc))
            else
              && result == Ok(plain)
              && r' == r.(base := r.base.Spend(true, mki).(rtp := r.base.rtp.Add(i)))
  {
    hide Transform.RtpProtected, Transform.RtpUnprotected, ParseRtp, Stream.GetMki, CarriesMki, RtpIndex.Estimate;
    var h := ParseRtp(plain).value;
    RtpPacketReadable(cs, r, mki, t, plain, packet, RocOf(i));
    EstimateRecovers(r.base.rtp, i);
    RtpExact(cs, t, plain, packet, h, RocOf(i));
  }

  /** The same for SRTCP: the trailer gives back the index and the MKI, for every 31-bit index. */
  lemma RtcpDelivered(cs: Suite, r: Stream, mki: Mki, t: Transform, plain: Bytes, packet: Bytes, i: u31)
    requires r.Valid() && Agrees(r, mki, t) && ParseRtcp(plain).Ok?
    requires t.RtcpProtected(cs, plain, ParseRtcp(plain).value, i) == Ok(packet)
    ensures ParseRtcp(packet) == ParseRtcp(plain)
    ensures |packet| >= RTCP_HEADER_SIZE + RtcpTrailer(r) && RtcpIndexOf(r, packet) == i
    ensures var (r', result) := ReceiveRtcp(cs, r, ParseRtcp(plain).value, packet);
            if r.side.rtcp.Seen(i) then result == Err(InvalidPacketIndex)
            else if mki !in r.base.transforms then result == Err(InvalidMki)
            else if r.base.Left(false, mki) == 0 then result == Err(KeyLimit(false, true, mki, r.base.ssrc))
            else
              && result == Ok(plain)
              && r' == Stream(r.base.Spend(false, mki), r.side.(rtcp := r.side.rtcp.Add(i)))
  {
    hide Transform.RtcpProtected, Transform.SrtcpPacket, Transform.RtcpUnprotected, ParseRtcp, CarriesMki, RtcpIndexOf;
    RtcpPacketReadable(cs, r, mki, t, plain, packet, i);
    hide Stream.GetMki, RtcpIndex.Seen;
    RtcpExact(cs, t, plain, packet, ParseRtcp(plain).value, i, t.EncryptsRtcp());
    AsSrtcpPacket(cs, t, plain, ParseRtcp(plain).value, i);
  }

  lemma AsSrtcpPacket(cs: Suite, t: Transform, plain: Bytes, h: RtcpHeader, i: u31)
    requires t.Valid() && RTCP_HEADER_SIZE <= |plain|
    ensures t.RtcpProtected(cs, plain, h, i) == t.SrtcpPacket(cs, plain, h, i, t.EncryptsRtcp())
  {
    hide Transform.SrtcpPacket;
  }

  lemma WordIndex(encrypted: bool, i: u31)
    ensures U32At(EsrtcpWord(encrypted, i), 0) % RTCP_ROLLBACK == i
  {
    U32Bytes(i + if encrypted then E_FLAG else 0);
  }

  lemma RtcpPacketReadable(cs: Suite, r: Stream, mki: Mki, t: Transform, plain: Bytes, packet: Bytes, i: u31)
    requires Readable(r, mki, t) && ParseRtcp(plain).Ok?
    requires t.RtcpProtected(cs, plain, ParseRtcp(plain).value, i) == Ok(packet)
    ensures ParseRtcp(packet) == ParseRtcp(plain)
    ensures RtcpTrailer(r) == t.RtcpTrailerLen()
    ensures |packet| >= RTCP_HEADER_SIZE + RtcpTrailer(r) && RtcpIndexOf(r, packet) == i
    ensures r.GetMki(packet, RTCP_HEADER_SIZE, false) == Ok(mki)
    ensures CarriesMki(packet, t.RtcpTagLen(), mki)
    ensures CarriesWord(packet, t.RtcpTrailerLen(), EsrtcpWord(t.EncryptsRtcp(), i))
  {
    hide Transform.RtcpProtected, Transform.SrtcpPacket, ParseRtcp, EsrtcpWord,
         Transform.RtcpTagLen, Transform.RtcpExpansion, Transform.Mki;
    var h, word := ParseRtcp(plain).value, EsrtcpWord(t.EncryptsRtcp(), i);
    AsSrtcpPacket(cs, t, plain, h, i);
    RtcpLengths(cs, t, plain, packet, h, i, t.EncryptsRtcp());
    ExpansionCoversTag(t);
    ParseRtcpLocal(plain, packet);
    WordIndex(t.EncryptsRtcp(), i);
    var at := |packet| - RtcpTrailer(r);
    assert packet[at..at + 4] == word;
    assert forall k | 0 <= k < 4 :: packet[at + k] == word[k];
  }

  // ---- the keys of two parties that are re-keyed independently ----

  /** The transform each MKI stands for, whenever either party has a key of that MKI. */
  type KeyRing = map<Mki, Transform>

  ghost predicate Holds(ring: KeyRing, keys: KeyMap) {
    forall m | m in keys :: m in ring && ring[m] == keys[m].transform
  }

  /** The receiver can read every MKI of the ring, or reads none and has no key for that. */
  ghost predicate Hears(ring: KeyRing, r: Stream) {
    && r.side.Receiving?
    && ((forall m | m in ring :: Readable(r, m, ring[m])) || (r.base.mkiLen == 0 && None !in ring))
  }

  /** What a configuration files, when its transforms can be built, is on the ring. */
  ghost predicate OnRing(cs: Suite, ring: KeyRing, c: StreamConfig) {
    c.Valid() && SaltsFit(c) && Transforms(cs, c).Ok? ==> Holds(ring, Transforms(cs, c).value)
  }

  /** The same as `Hears`, of the receiver that a configuration makes. */
  ghost predicate RingFits(ring: KeyRing, c: StreamConfig)
    requires c.keys != []
  {
    || (c.MkiLen() == 0 && None !in ring)
    || forall m | m in ring ::
         && ring[m].Valid() && ring[m].Mki() == m
         && (if c.MkiLen() == 0 then m == None else m.Some? && |m.value| == c.MkiLen())
         && ring[m].RtpTagLen() == c.rtpProfile.TagLen() && ring[m].RtcpTagLen() == c.rtcpProfile.TagLen()
  }

  function OwnRing(cs: Suite, c: StreamConfig): KeyRing
    requires SaltsFit(c) && Transforms(cs, c).Ok?
  {
    map m | m in Transforms(cs, c).value :: Transforms(cs, c).value[m].transform
  }

  /** Every configuration that can be built fits the ring of its own keys. */
  lemma OwnRingFits(cs: Suite, c: StreamConfig)
    requires c.Valid() && SaltsFit(c) && Transforms(cs, c).Ok? && c.keys != []
    ensures OnRing(cs, OwnRing(cs, c), c) && RingFits(OwnRing(cs, c), c)
  {
    hide StreamConfig.Valid, Transforms, Transform.Valid, Transform.Mki, Transform.RtpTagLen, Transform.RtcpTagLen;
    ValidationSound(cs, c);
    assert forall m | m in OwnRing(cs, c) :: GoodEntry(c, m, OwnRing(cs, c)[m]);
    if c.keys[0].mki == None {
      SingleKeyWithoutMki(cs, c);
    } else if c.keys[0].mki == Some([]) {
      NoneUnfiled(cs, c);
    }
  }

  lemma SingleKeyWithoutMki(cs: Suite, c: StreamConfig)
    requires c.Valid() && SaltsFit(c) && Transforms(cs, c).Ok? && c.keys[0].mki == None
    ensures Transforms(cs, c).value.Keys == {None}
  {
    assert |c.keys| == 1;
    ValidationSound(cs, c);
    TransformsBuilt(cs, c, 1);
    assert MkisUpTo(c, 1) == MkisUpTo(c, 0) + {None};
  }

  lemma AllMkis(c: StreamConfig)
    requires c.Valid() && c.keys != [] && c.keys[0].mki == Some([])
    ensures forall k | 0 <= k < |c.keys| :: c.keys[k].mki.Some?
  {
  }

  lemma NoneUnfiled(cs: Suite, c: StreamConfig)
    requires c.Valid() && SaltsFit(c) && Transforms(cs, c).Ok? && c.keys != [] && c.keys[0].mki == Some([])
    ensures None !in Transforms(cs, c).value
  {
    hide StreamConfig.Valid, GoodEntry, NewTransform, MkisUpTo;
    AllMkis(c);
    ValidationSound(cs, c);
    TransformsBuilt(cs, c, |c.keys|);
    InMkisUpTo(c, |c.keys|, None);
  }

  /** Re-keying from the ring changes neither index nor what the receiver assumes about packets. */
  lemma RekeyHolds(cs: Suite, ring: KeyRing, s: Stream, c: StreamConfig, order: seq<Mki>)
    requires s.Valid() && c.Valid() && SaltsFit(c) && OnRing(cs, ring, c) && Holds(ring, s.base.transforms)
    ensures var s' := Update(cs, s, c, order).0;
            && s'.Valid() && Holds(ring, s'.base.transforms) && s'.base.mkiLen == s.base.mkiLen
            && (s'.base.rtp == s.base.rtp || s'.base.rtp == s.base.rtp.Resize(c.replayWindowSize))
            && (s.side.Sending? ==> s'.side == s.side)
            && (s.side.Receiving? ==>
                  s'.side == s.side || s'.side == s.side.(rtcp := s.side.rtcp.Resize(c.replayWindowSize)))
  {
    hide StreamConfig.Valid, Transforms, Transform.Valid;
    UpdateKeepsKeys(cs, s, c, order);
    var added := Transforms(cs, c);
    if added.Ok? {
      MergeKeeps(s.base.transforms, added.value, order);
    }
  }

  lemma HearsTheSame(ring: KeyRing, r: Stream, r': Stream)
    requires Hears(ring, r) && r'.side.Receiving? && r'.base.mkiLen == r.base.mkiLen
    requires r'.side.rtpTagLen == r.side.rtpTagLen && r'.side.rtcpTagLen == r.side.rtcpTagLen
    ensures Hears(ring, r')
  {
    hide Transform.Valid, Transform.Mki, Transform.RtpTagLen, Transform.RtcpTagLen;
  }

  // ---- whole runs ----

  datatype Sent = Sent(index: nat, mki: Mki, plain: Bytes, packet: Bytes)

  /** `wire` is all that was sent, `accepted` which of it the receiver took, and what it got. */
  datatype System = System(sender: Stream, receiver: Stream, wire: seq<Sent>, accepted: seq<(nat, Bytes)>) {
    ghost predicate Valid() {
      sender.Valid() && receiver.Valid() && sender.side.Sending? && receiver.side.Receiving?
    }
  }

  datatype Action =
    | Send(plain: Bytes, mki: Mki)
    | Deliver(k: nat)
    | RekeySender(config: StreamConfig, order: seq<Mki>)
    | RekeyReceiver(config: StreamConfig, order: seq<Mki>)

  function Rekeyed(cs: Suite, s: Stream, c: StreamConfig, order: seq<Mki>): Stream {
    if c.Valid() && SaltsFit(c) then Update(cs, s, c, order).0 else s
  }

  ghost predicate Genuine(cs: Suite, ring: KeyRing, p: Sent) {
    && p.mki in ring && ring[p.mki].Valid()
    && ParseRtp(p.plain).Ok?
    && p.index % ROC_STEP == ParseRtp(p.plain).value.seqNum
    && ring[p.mki].RtpProtected(cs, p.plain, ParseRtp(p.plain).value, RocOf(p.index)) == Ok(p.packet)
  }

  ghost predicate Linked(cs: Suite, ring: KeyRing, y: System) {
    && y.Valid()
    && y.receiver.base.rtp.pendingRoc.None?
    && y.receiver.base.rtp.window.top <= y.sender.base.rtp.window.top
    && Holds(ring, y.sender.base.transforms) && Holds(ring, y.receiver.base.transforms) && Hears(ring, y.receiver)
    && (forall p | p in y.wire :: Genuine(cs, ring, p) && p.index <= y.sender.base.rtp.window.top)
  }

  function Act(cs: Suite, y: System, a: Action): System
    requires y.Valid()
  {
    match a
    case Send(plain, mki) =>
      if ParseRtp(plain).Err? then y
      else
        var h := ParseRtp(plain).value;
        var (s, r) := SendRtp(cs, y.sender, h, plain, mki);
        if r.Err? then y
        else y.(sender := s, wire := y.wire + [Sent(RtpIndexOf(y.sender, h), mki, plain, r.value)])
    case Deliver(k) =>
      if k >= |y.wire| || ParseRtp(y.wire[k].packet).Err? then y
      else
        var (s, r) := ReceiveRtp(cs, y.receiver, ParseRtp(y.wire[k].packet).value, y.wire[k].packet);
        if r.Err? then y.(receiver := s)
        else y.(receiver := s, accepted := y.accepted + [(k, r.value)])
    case RekeySender(c, order) => y.(sender := Rekeyed(cs, y.sender, c, order))
    case RekeyReceiver(c, order) => y.(receiver := Rekeyed(cs, y.receiver, c, order))
  }

  /**
   What is delivered is less than 2^15 away from the newest index the receiver has; a re-keying
   takes its keys from the ring, and forgets no index of the receiver.
   */
  ghost predicate Fair(cs: Suite, ring: KeyRing, y: System, a: Action) {
    match a
    case Send(_, _) => true
    case Deliver(k) =>
      k < |y.wire| ==>
        && y.receiver.base.rtp.window.top < RTP_INDEX_LIMIT
        && Distance(y.wire[k].index, y.receiver.base.rtp.window.top) < MAX_SEQ_NUM_STEP
    case RekeySender(c, _) => OnRing(cs, ring, c)
    case RekeyReceiver(c, _) => OnRing(cs, ring, c) && y.receiver.base.rtp.ResizeSafe(c.replayWindowSize)
  }

  function Highest(y: System): nat
    requires forall a | a in y.accepted :: a.0 < |y.wire|
    decreases |y.accepted|
  {
    if y.accepted == [] then 0
    else
      var n := |y.accepted| - 1;
      var before := Highest(y.(accepted := y.accepted[..n]));
      var last := y.wire[y.accepted[n].0].index;
      if last > before then last else before
  }

  ghost predicate Faithful(y: System) {
    && (forall a | a in y.accepted ::
          a.0 < |y.wire| && a.1 == y.wire[a.0].plain && y.receiver.base.rtp.Seen(y.wire[a.0].index))
    && (forall i, j | 0 <= i < j < |y.accepted| ::
          y.wire[y.accepted[i].0].index != y.wire[y.accepted[j].0].index)
    && Highest(y) == y.receiver.base.rtp.window.top
  }

  /** A packet that was sent is genuine, and all the sender changes is its index and a life. */
  lemma SendEffect(cs: Suite, ring: KeyRing, y: System, a: Action)
    requires y.Valid() && Holds(ring, y.sender.base.transforms) && a.Send? && Act(cs, y, a) != y
    ensures var y' := Act(cs, y, a);
            && |y'.wire| == |y.wire| + 1
            && y' == y.(sender := y'.sender, wire := y.wire + [y'.wire[|y.wire|]])
            && Genuine(cs, ring, y'.wire[|y.wire|])
            && y'.sender.base.rtp == y.sender.base.rtp.Add(y'.wire[|y.wire|].index)
            && Holds(ring, y'.sender.base.transforms)
  {
    hide ParseRtp, Transform.RtpProtected, Transform.Valid, RtpIndex.Estimate, Base.Spend, RtpIndex.Seen;
  }

  lemma SendStep(cs: Suite, ring: KeyRing, y: System, a: Action)
    requires Linked(cs, ring, y) && Faithful(y) && a.Send?
    ensures Linked(cs, ring, Act(cs, y, a)) && Faithful(Act(cs, y, a))
  {
    hide Act, Genuine, Holds, Hears, Stream.Valid;
    var y' := Act(cs, y, a);
    ActValid(cs, y, a);
    if y' != y {
      SendEffect(cs, ring, y, a);
      var p := y'.wire[|y.wire|];
      forall q | q in y'.wire
        ensures Genuine(cs, ring, q) && q.index <= y'.sender.base.rtp.window.top
      {
        assert q in y.wire || q == p;
      }
      HighestSameWire(y, y');
    }
  }

  lemma {:induction false} HighestSameWire(y: System, y': System)
    requires y'.accepted == y.accepted && y.wire <= y'.wire
    requires forall a | a in y.accepted :: a.0 < |y.wire|
    ensures Highest(y') == Highest(y)
    decreases |y.accepted|
  {
    if y.accepted != [] {
      var n := |y.accepted| - 1;
      HighestSameWire(y.(accepted := y.accepted[..n]), y'.(accepted := y.accepted[..n]));
    }
  }

  /** Without an MKI in the packet and a key for that, nothing is accepted. */
  lemma NothingHeard(cs: Suite, r: Stream, h: RtpHeader, packet: Bytes)
    requires r.Valid() && r.side.Receiving? && r.base.mkiLen == 0 && None !in r.base.transforms
    ensures ReceiveRtp(cs, r, h, packet).1.Err?
  {
    hide RtpIndex.Estimate, RtpIndex.Seen, Transform.RtpUnprotected;
  }

  /** What a delivery near enough does: nothing, or the one packet accepted for what it is. */
  lemma DeliverEffect(cs: Suite, ring: KeyRing, y: System, k: nat)
    requires Linked(cs, ring, y) && Fair(cs, ring, y, Deliver(k)) && k < |y.wire|
    ensures var y', i := Act(cs, y, Deliver(k)), y.wire[k].index;
            y' == y || (
              && !y.receiver.base.rtp.Seen(i)
              && y' == y.(receiver := y'.receiver, accepted := y.accepted + [(k, y.wire[k].plain)])
              && y'.receiver.side == y.receiver.side
              && y'.receiver.base.rtp == y.receiver.base.rtp.Add(i)
              && y'.receiver.base.mkiLen == y.receiver.base.mkiLen
              && Holds(ring, y'.receiver.base.transforms))
  {
    hide ParseRtp, Transform.RtpProtected, Transform.Valid, RtpIndex.Estimate, Base.Spend, ReceiveRtp, RtpIndex.Seen,
         RtpIndex.Add;
    var p := y.wire[k];
    assert p in y.wire && Genuine(cs, ring, p);
    if y.receiver.base.mkiLen == 0 && None !in ring {
      if ParseRtp(p.packet).Ok? {
        NothingHeard(cs, y.receiver, ParseRtp(p.packet).value, p.packet);
      }
    } else {
      RtpDelivered(cs, y.receiver, p.mki, ring[p.mki], p.plain, p.packet, p.index);
    }
  }

  lemma DeliverStep(cs: Suite, ring: KeyRing, y: System, a: Action)
    requires Linked(cs, ring, y) && Faithful(y) && a.Deliver? && Fair(cs, ring, y, a)
    ensures Linked(cs, ring, Act(cs, y, a)) && Faithful(Act(cs, y, a))
  {
    hide Genuine, Holds, Stream.Valid, ReceiveRtp, ParseRtp, Transform.Valid, RtpIndex.Seen;
    if a.k < |y.wire| {
      ActValid(cs, y, a);
      DeliverEffect(cs, ring, y, a.k);
      hide Act;
      var y' := Act(cs, y, a);
      if y' != y {
        assert y.wire[a.k] in y.wire;
        AcceptStep(y, y', a.k);
      }
    }
  }

  lemma AcceptStep(y: System, y': System, k: nat)
    requires y.receiver.Valid() && Faithful(y) && k < |y.wire| && !y.receiver.base.rtp.Seen(y.wire[k].index)
    requires y' == y.(receiver := y'.receiver, accepted := y.accepted + [(k, y.wire[k].plain)])
    requires y'.receiver.base.rtp == y.receiver.base.rtp.Add(y.wire[k].index)
    ensures Faithful(y')
  {
    var n, i := |y.accepted|, y.wire[k].index;
    forall a | a in y'.accepted
      ensures a.0 < |y.wire| && a.1 == y.wire[a.0].plain && y'.receiver.base.rtp.Seen(y.wire[a.0].index)
    {
      AddKeepsSeen(y.receiver.base.rtp.window, i, y.wire[a.0].index);
    }
    assert y'.accepted[..n] == y.accepted;
    assert y'.(accepted := y.accepted).wire == y.wire;
    HighestSameWire(y, y'.(accepted := y'.accepted[..n]));
    forall j | 0 <= j < n
      ensures y.wire[y.accepted[j].0].index != i
    {
      assert y.accepted[j] in y.accepted;
    }
  }

  lemma RekeyStep(cs: Suite, ring: KeyRing, y: System, a: Action)
    requires Linked(cs, ring, y) && Faithful(y) && (a.RekeySender? || a.RekeyReceiver?) && Fair(cs, ring, y, a)
    ensures Linked(cs, ring, Act(cs, y, a)) && Faithful(Act(cs, y, a))
  {
    hide Update, Genuine, Holds, OnRing, Stream.Valid, StreamConfig.Valid, Hears, Window.Seen;
    var y', c := Act(cs, y, a), a.config;
    if c.Valid() && SaltsFit(c) {
      RekeyHolds(cs, ring, if a.RekeySender? then y.sender else y.receiver, c, a.order);
      if a.RekeyReceiver? {
        HearsTheSame(ring, y.receiver, y'.receiver);
        ResizeKeepsSeen(y.receiver.base.rtp.window, 0, c.replayWindowSize);
      }
    }
    HighestSameWire(y, y');
  }

  lemma ActValid(cs: Suite, y: System, a: Action)
    requires y.Valid()
    ensures Act(cs, y, a).Valid()
  {
    hide ParseRtp, SendRtp, ReceiveRtp, Update, Base.Valid, StreamConfig.Valid;
    match a
    case Send(plain, mki) =>
      if ParseRtp(plain).Ok? {
        StreamRuns.StepValid(cs, y.sender, StreamRuns.ProtectRtp(ParseRtp(plain).value, plain, mki));
      }
    case Deliver(k) =>
      if k < |y.wire| && ParseRtp(y.wire[k].packet).Ok? {
        StreamRuns.StepValid(cs, y.receiver,
          StreamRuns.UnprotectRtp(ParseRtp(y.wire[k].packet).value, y.wire[k].packet));
      }
    case RekeySender(c, order) => StreamRuns.StepValid(cs, y.sender, StreamRuns.Rekey(c, order));
    case RekeyReceiver(c, order) => StreamRuns.StepValid(cs, y.receiver, StreamRuns.Rekey(c, order));
  }

  function RunAll(cs: Suite, y: System, actions: seq<Action>): System
    requires y.Valid()
    decreases |actions|
  {
    if actions == [] then y
    else
      ActValid(cs, y, actions[0]);
      RunAll(cs, Act(cs, y, actions[0]), actions[1..])
  }

  ghost predicate FairRun(cs: Suite, ring: KeyRing, y: System, actions: seq<Action>)
    requires y.Valid()
    decreases |actions|
  {
    actions != [] ==>
      && Fair(cs, ring, y, actions[0])
      && (ActValid(cs, y, actions[0]); FairRun(cs, ring, Act(cs, y, actions[0]), actions[1..]))
  }

  lemma {:induction false} RunFaithful(cs: Suite, ring: KeyRing, y: System, actions: seq<Action>)
    requires Linked(cs, ring, y) && Faithful(y) && FairRun(cs, ring, y, actions)
    ensures Linked(cs, ring, RunAll(cs, y, actions)) && Faithful(RunAll(cs, y, actions))
    decreases |actions|
  {
    hide Linked, Faithful, Act, Fair, System.Valid;
    if actions != [] {
      var a := actions[0];
      LinkedValid(cs, ring, y);
      ActValid(cs, y, a);
      match a {
        case Send(_, _) => SendStep(cs, ring, y, a);
        case Deliver(_) => DeliverStep(cs, ring, y, a);
        case RekeySender(_, _) => RekeyStep(cs, ring, y, a);
        case RekeyReceiver(_, _) => RekeyStep(cs, ring, y, a);
      }
      RunFaithful(cs, ring, Act(cs, y, a), actions[1..]);
    }
  }

  lemma LinkedValid(cs: Suite, ring: KeyRing, y: System)
    requires Linked(cs, ring, y)
    ensures y.Valid()
  {
  }

  function FreshSystem(s: Stream, r: Stream): System {
    System(s, r, [], [])
  }

  /** Two new streams of one configuration have its keys, which are on the ring, and start in step. */
  lemma FreshLinked(cs: Suite, ring: KeyRing, ssrc: u32, c: StreamConfig)
    requires c.Valid() && SaltsFit(c) && Transforms(cs, c).Ok? && c.keys != []
    requires OnRing(cs, ring, c) && RingFits(ring, c)
    ensures NewStream(cs, Sender, ssrc, c).Ok? && NewStream(cs, Receiver, ssrc, c).Ok?
    ensures var y := FreshSystem(NewStream(cs, Sender, ssrc, c).value, NewStream(cs, Receiver, ssrc, c).value);
            Linked(cs, ring, y) && Faithful(y)
  {
    hide StreamConfig.Valid, Transforms, Transform.Valid, GoodEntry;
    NewStreamValid(cs, Sender, ssrc, c);
    NewStreamValid(cs, Receiver, ssrc, c);
  }

  /**
   End to end: whatever is sent, lost, repeated or reordered, and however the two parties are
   re-keyed, everything the receiver accepts is, byte for byte, what was sent under that index; no
   index is accepted twice; and the receiver's newest index is the highest one accepted and never
   passes the sender's.
   */
  lemma EndToEnd(cs: Suite, ring: KeyRing, ssrc: u32, c: StreamConfig, actions: seq<Action>)
    requires c.Valid() && SaltsFit(c) && Transforms(cs, c).Ok? && c.keys != []
    requires OnRing(cs, ring, c) && RingFits(ring, c)
    ensures NewStream(cs, Sender, ssrc, c).Ok? && NewStream(cs, Receiver, ssrc, c).Ok?
    ensures var y := FreshSystem(NewStream(cs, Sender, ssrc, c).value, NewStream(cs, Receiver, ssrc, c).value);
            && y.Valid()
            && (FairRun(cs, ring, y, actions) ==>
                  var r := RunAll(cs, y, actions);
                  && (forall a | a in r.accepted :: a.0 < |r.wire| && a.1 == r.wire[a.0].plain)
                  && (forall i, j | 0 <= i < j < |r.accepted| ::
                        r.wire[r.accepted[i].0].index != r.wire[r.accepted[j].0].index)
                  && Highest(r) == r.receiver.base.rtp.window.top <= r.sender.base.rtp.window.top)
  {
    hide Transforms, StreamConfig.Valid, NewStream, RunAll, FairRun, Highest, OnRing, RingFits;
    FreshLinked(cs, ring, ssrc, c);
    var y := FreshSystem(NewStream(cs, Sender, ssrc, c).value, NewStream(cs, Receiver, ssrc, c).value);
    if FairRun(cs, ring, y, actions) {
      RunFaithful(cs, ring, y, actions);
    }
  }

  /** In particular for every configuration that can be built, with no keys but its own. */
  lemma EndToEndOwnKeys(cs: Suite, ssrc: u32, c: StreamConfig, actions: seq<Action>)
    requires c.Valid() && SaltsFit(c) && Transforms(cs, c).Ok?
    ensures NewStream(cs, Sender, ssrc, c).Ok? && NewStream(cs, Receiver, ssrc, c).Ok?
    ensures var y := FreshSystem(NewStream(cs, Sender, ssrc, c).value, NewStream(cs, Receiver, ssrc, c).value);
            && y.Valid()
            && (FairRun(cs, OwnRing(cs, c), y, actions) ==>
                  var r := RunAll(cs, y, actions);
                  && (forall a | a in r.accepted :: a.0 < |r.wire| && a.1 == r.wire[a.0].plain)
                  && (forall i, j | 0 <= i < j < |r.accepted| ::
                        r.wire[r.accepted[i].0].index != r.wire[r.accepted[j].0].index)
                  && Highest(r) == r.receiver.base.rtp.window.top <= r.sender.base.rtp.window.top)
  {
    ValidNonEmpty(c);
    hide Transforms, StreamConfig.Valid, NewStream, RunAll, FairRun, Highest, OnRing, RingFits, OwnRing;
    OwnRingFits(cs, c);
    EndToEnd(cs, OwnRing(cs, c), ssrc, c, actions);
  }
}
