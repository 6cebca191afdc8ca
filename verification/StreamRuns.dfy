/** Properties of every run of one stream. */
module StreamRuns {
  import opened Types
  import opened Crypto
  import opened Header
  import opened Profile
  import opened SlidingWindow
  import opened ReplayIndex
  import opened Transform
  import opened StreamConfig
  import opened StreamSpec

  datatype Event =
    | ProtectRtp(h: RtpHeader, packet: Bytes, mki: Mki)
    | ProtectRtcp(rh: RtcpHeader, packet: Bytes, mki: Mki)
    | UnprotectRtp(h: RtpHeader, packet: Bytes)
    | UnprotectRtcp(rh: RtcpHeader, packet: Bytes)
    | ForceRoc(roc: u32)
    | Rekey(config: StreamConfig, order: seq<Mki>)
    | Kill(mki: Mki)
  {
    predicate IsRtp() {
      ProtectRtp? || UnprotectRtp?
    }

    predicate IsPacket() {
      IsRtp() || ProtectRtcp? || UnprotectRtcp?
    }

    /** The operation exists for this kind of stream, and the header is one parsed from the packet. */
    predicate Fits(s: Stream) {
      match this
      case ProtectRtp(h, p, _) => s.side.Sending? && h.len <= |p|
      case ProtectRtcp(_, p, _) => s.side.Sending? && RTCP_HEADER_SIZE <= |p|
      case UnprotectRtp(_, _) => s.side.Receiving?
      case UnprotectRtcp(_, _) => s.side.Receiving?
      case ForceRoc(_) => s.side.Receiving?
      case Rekey(c, _) => c.Valid() && SaltsFit(c)
      case Kill(_) => true
    }
  }

  function Done(r: Result<Unit>): Result<Bytes> {
    match r
    case Ok(_) => Ok([])
    case Err(e) => Err(e)
  }

  /** One event; what does not fit the stream does not happen. */
  function Step(cs: Suite, s: Stream, e: Event): (Stream, Result<Bytes>)
    requires s.Valid()
  {
    if !e.Fits(s) then (s, Err(InvalidPacket))
    else
      match e
      case ProtectRtp(h, p, mki) => SendRtp(cs, s, h, p, mki)
      case ProtectRtcp(rh, p, mki) => SendRtcp(cs, s, rh, p, mki)
      case UnprotectRtp(h, p) => ReceiveRtp(cs, s, h, p)
      case UnprotectRtcp(rh, p) => ReceiveRtcp(cs, s, rh, p)
      case ForceRoc(roc) => var (s', r) := SetRoc(s, roc); (s', Done(r))
      case Rekey(c, order) => var (s', r) := Update(cs, s, c, order); (s', Done(r))
      case Kill(mki) => (s.(base := s.base.Kill(mki)), Ok([]))
  }

  /** The MKI whose key a packet operation uses. */
  function UsedMki(s: Stream, e: Event): Mki
    requires e.IsPacket() && e.Fits(s)
  {
    match e
    case ProtectRtp(_, _, mki) => mki
    case ProtectRtcp(_, _, mki) => mki
    case UnprotectRtp(h, p) => var r := s.GetMki(p, h.len, true); if r.Ok? then r.value else None
    case UnprotectRtcp(_, p) => var r := s.GetMki(p, RTCP_HEADER_SIZE, false); if r.Ok? then r.value else None
  }

  predicate Succeeds(cs: Suite, s: Stream, e: Event)
    requires s.Valid()
  {
    e.IsPacket() && e.Fits(s) && Step(cs, s, e).1.Ok?
  }

  /** Everything a successful packet operation changes. */
  lemma Success(cs: Suite, s: Stream, e: Event)
    requires s.Valid() && Succeeds(cs, s, e)
    ensures var s', mki := Step(cs, s, e).0, UsedMki(s, e);
            && s.base.Left(e.IsRtp(), mki) > 0
            && s'.base == s.base.Spend(e.IsRtp(), mki).(rtp := s'.base.rtp)
            && (e.IsRtp() ==>
                  && s'.side == s.side
                  && s'.base.rtp == s.base.rtp.Add(RtpIndexOf(s, e.h))
                  && (s.side.Receiving? || !s.base.allowSendRepeat ==> !s.base.rtp.Seen(RtpIndexOf(s, e.h))))
            && (!e.IsRtp() ==> s'.base.rtp == s.base.rtp)
            && (e.ProtectRtcp? ==> s'.side == Sending((s.side.rtcpIndex + 1) % RTCP_ROLLBACK))
            && (e.UnprotectRtcp? ==>
                  && |e.packet| >= RTCP_HEADER_SIZE + RtcpTrailer(s)
                  && !s.side.rtcp.Seen(RtcpIndexOf(s, e.packet))
                  && s'.side == s.side.(rtcp := s.side.rtcp.Add(RtcpIndexOf(s, e.packet))))
  {
    hide Transform.RtpProtected, Transform.RtcpProtected, Transform.RtpUnprotected, Transform.RtcpUnprotected,
         RtpIndex.Estimate, RtpIndex.Add, RtcpIndex.Add, RtcpIndexOf, RtpIndex.Seen, RtcpIndex.Seen, Base.Spend,
         Transform.Valid, StreamConfig.Valid;
  }

  /** Everything that is not a successful packet operation changes. */
  lemma Otherwise(cs: Suite, s: Stream, e: Event)
    requires s.Valid() && !Succeeds(cs, s, e)
    ensures var s' := Step(cs, s, e).0;
            && (e.IsPacket() || !e.Fits(s) ==> s' == s)
            && (e.ForceRoc? ==>
                  if Step(cs, s, e).1.Ok? then
                    && s.base.rtp.Roc() <= e.roc
                    && s' == s.(base := s.base.(rtp := s.base.rtp.SetRoc(e.roc)))
                  else s' == s)
            && (e.Kill? ==> s' == s.(base := s.base.Kill(e.mki)))
            && (e.Rekey? ==>
                  && (s'.base.rtp == s.base.rtp || s'.base.rtp == s.base.rtp.Resize(e.config.replayWindowSize))
                  && (s'.base.allowSendRepeat == s.base.allowSendRepeat
                      || s'.base.allowSendRepeat == e.config.allowSendRepeat)
                  && (s.side.Sending? ==> s'.side == s.side)
                  && (s.side.Receiving? ==>
                        s'.side == s.side
                        || s'.side == s.side.(rtcp := s.side.rtcp.Resize(e.config.replayWindowSize))))
  {
    hide Transforms, Merge, StreamConfig.Valid;
  }

  lemma SameTransformsValid(b: Base, b': Base)
    requires b.Valid() && b'.rtp.Valid()
    requires b'.transforms.Keys == b.transforms.Keys
    requires forall m | m in b.transforms :: b'.transforms[m].transform == b.transforms[m].transform
    ensures b'.Valid()
  {
  }

  lemma StepValid(cs: Suite, s: Stream, e: Event)
    requires s.Valid()
    ensures Step(cs, s, e).0.Valid()
    ensures Step(cs, s, e).0.side.Sending? == s.side.Sending?
  {
    hide Step, Base.Spend, Base.Kill, Transform.Valid, StreamConfig.Valid, UsedMki, RtpIndex.Estimate;
    var s' := Step(cs, s, e).0;
    if Succeeds(cs, s, e) {
      Success(cs, s, e);
      SameTransformsValid(s.base, s'.base);
    } else {
      Otherwise(cs, s, e);
      if e.Rekey? && e.Fits(s) {
        RekeyStep(cs, s, e);
        UpdateKeepsKeys(cs, s, e.config, e.order);
      } else {
        SameTransformsValid(s.base, s'.base);
      }
    }
  }

  lemma RekeyStep(cs: Suite, s: Stream, e: Event)
    requires s.Valid() && e.Rekey? && e.Fits(s)
    ensures Step(cs, s, e).0 == Update(cs, s, e.config, e.order).0
  {
    hide Update;
  }

  function Run(cs: Suite, s: Stream, events: seq<Event>): (r: Stream)
    requires s.Valid()
    ensures r.Valid() && r.side.Sending? == s.side.Sending?
    decreases |events|
  {
    if events == [] then s
    else
      StepValid(cs, s, events[0]);
      Run(cs, Step(cs, s, events[0]).0, events[1..])
  }

  // ---- no RTP index is used twice ----

  function UsedRtp(cs: Suite, s: Stream, e: Event): seq<nat>
    requires s.Valid()
  {
    if e.IsRtp() && Succeeds(cs, s, e) then [RtpIndexOf(s, e.h)] else []
  }

  /** The indexes of the RTP packets protected, or accepted, along a run. */
  function RtpIndexes(cs: Suite, s: Stream, events: seq<Event>): seq<nat>
    requires s.Valid()
    decreases |events|
  {
    if events == [] then []
    else
      StepValid(cs, s, events[0]);
      UsedRtp(cs, s, events[0]) + RtpIndexes(cs, Step(cs, s, events[0]).0, events[1..])
  }

  /** Replay protection is on, and no re-keying uncovers window positions already forgotten. */
  ghost predicate Careful(s: Stream, e: Event) {
    && (s.side.Receiving? || !s.base.allowSendRepeat)
    && (e.Rekey? ==> s.base.rtp.ResizeSafe(e.config.replayWindowSize))
  }

  ghost predicate CarefulRun(cs: Suite, s: Stream, events: seq<Event>)
    requires s.Valid()
    decreases |events|
  {
    events != [] ==>
      && Careful(s, events[0])
      && (StepValid(cs, s, events[0]); CarefulRun(cs, Step(cs, s, events[0]).0, events[1..]))
  }

  /** An index once seen stays seen, whatever happens next. */
  lemma SeenSticks(cs: Suite, s: Stream, e: Event, i: nat)
    requires s.Valid() && Careful(s, e)
    requires s.base.rtp.Seen(i) || UsedRtp(cs, s, e) == [i]
    ensures Step(cs, s, e).0.Valid() && Step(cs, s, e).0.base.rtp.Seen(i)
  {
    hide Step, Base.Spend, Base.Kill, RtpIndex.Estimate, UsedMki;
    StepValid(cs, s, e);
    if Succeeds(cs, s, e) {
      Success(cs, s, e);
      if e.IsRtp() {
        AddKeepsSeen(s.base.rtp.window, RtpIndexOf(s, e.h), i);
      }
    } else {
      Otherwise(cs, s, e);
      if e.Rekey? {
        ResizeKeepsSeen(s.base.rtp.window, 0, e.config.replayWindowSize);
      }
    }
  }

  /**
   Along any run, whatever the packets, failures, forced ROCs, MKIs and re-keyings in it, no RTP
   index is protected or accepted twice, nor one that the stream had seen before.
   */
  lemma {:induction false} AtMostOnce(cs: Suite, s: Stream, events: seq<Event>)
    requires s.Valid() && CarefulRun(cs, s, events)
    ensures Distinct(RtpIndexes(cs, s, events))
    ensures forall i | i in RtpIndexes(cs, s, events) :: !s.base.rtp.Seen(i)
    decreases |events|
  {
    hide Step, RtpIndex.Estimate, RtpIndex.Seen, Careful, Succeeds;
    if events != [] {
      var e := events[0];
      StepValid(cs, s, e);
      var s', used := Step(cs, s, e).0, UsedRtp(cs, s, e);
      var rest := RtpIndexes(cs, s', events[1..]);
      AtMostOnce(cs, s', events[1..]);
      forall i | i in rest
        ensures !s.base.rtp.Seen(i) && used != [i]
      {
        if s.base.rtp.Seen(i) || used == [i] {
          SeenSticks(cs, s, e, i);
        }
      }
      if used != [] {
        UsedIsNew(cs, s, e);
      }
    }
  }

  lemma UsedIsNew(cs: Suite, s: Stream, e: Event)
    requires s.Valid() && Careful(s, e) && UsedRtp(cs, s, e) != []
    ensures !s.base.rtp.Seen(UsedRtp(cs, s, e)[0])
  {
    hide Step, RtpIndex.Estimate, RtpIndex.Seen;
    Success(cs, s, e);
  }

  // ---- no SRTCP index is accepted twice ----

  predicate AcceptsRtcp(cs: Suite, s: Stream, e: Event)
    requires s.Valid()
  {
    e.UnprotectRtcp? && Succeeds(cs, s, e) && |e.packet| >= RtcpTrailer(s)
  }

  /** The SRTCP indexes accepted along a run, unwrapped, and whether each was in the blind spot. */
  function RtcpAccepted(cs: Suite, s: Stream, events: seq<Event>): seq<(int, bool)>
    requires s.Valid() && s.side.Receiving?
    decreases |events|
  {
    if events == [] then []
    else
      StepValid(cs, s, events[0]);
      var e := events[0];
      (if AcceptsRtcp(cs, s, e) then [Unwrapped(s, RtcpIndexOf(s, e.packet))] else [])
        + RtcpAccepted(cs, Step(cs, s, e).0, events[1..])
  }

  function Unwrapped(s: Stream, x: u31): (int, bool)
    requires s.Valid() && s.side.Receiving?
  {
    (Unwrap(s.side.rtcp.window.top, x), BlindSpot(s.side.rtcp.window.top, x))
  }

  /** No re-keying uncovers positions of the SRTCP window already forgotten. */
  ghost predicate CarefulRtcp(s: Stream, e: Event)
    requires s.Valid() && s.side.Receiving?
  {
    e.Rekey? ==> s.side.rtcp.window.ResizeSafe(e.config.replayWindowSize)
  }

  ghost predicate CarefulRtcpRun(cs: Suite, s: Stream, events: seq<Event>)
    requires s.Valid() && s.side.Receiving?
    decreases |events|
  {
    events != [] ==>
      && CarefulRtcp(s, events[0])
      && (StepValid(cs, s, events[0]); CarefulRtcpRun(cs, Step(cs, s, events[0]).0, events[1..]))
  }

  lemma RtcpSeenSticks(cs: Suite, s: Stream, e: Event, u: int)
    requires s.Valid() && s.side.Receiving? && CarefulRtcp(s, e)
    requires s.side.rtcp.window.Seen(u)
             || (AcceptsRtcp(cs, s, e) && u == Unwrap(s.side.rtcp.window.top, RtcpIndexOf(s, e.packet)))
    ensures Step(cs, s, e).0.side.Receiving? && Step(cs, s, e).0.side.rtcp.window.Seen(u)
  {
    hide Step, Base.Spend, Base.Kill, RtpIndex.Estimate, RtpIndex.Add, RtpIndex.Seen, UsedMki, RtcpIndexOf, Unwrap;
    if Succeeds(cs, s, e) {
      Success(cs, s, e);
      if e.UnprotectRtcp? {
        AddKeepsSeen(s.side.rtcp.window, Unwrap(s.side.rtcp.window.top, RtcpIndexOf(s, e.packet)), u);
      }
    } else {
      Otherwise(cs, s, e);
      if e.Rekey? {
        ResizeKeepsSeen(s.side.rtcp.window, u, e.config.replayWindowSize);
      }
    }
  }

  lemma AcceptedRtcpIsNew(cs: Suite, s: Stream, e: Event)
    requires s.Valid() && s.side.Receiving? && AcceptsRtcp(cs, s, e)
    ensures var (u, blind) := Unwrapped(s, RtcpIndexOf(s, e.packet)); blind || !s.side.rtcp.window.Seen(u)
  {
    hide Step, RtcpIndexOf, Unwrap, BlindSpot;
    Success(cs, s, e);
  }

  /**
   The same for SRTCP, over the unbounded indexes and across any number of rollovers, except for
   what is in the blind spot when it is accepted.
   */
  lemma {:induction false} RtcpAtMostOnce(cs: Suite, s: Stream, events: seq<Event>)
    requires s.Valid() && s.side.Receiving? && CarefulRtcpRun(cs, s, events)
    ensures OnceUnlessBlind(RtcpAccepted(cs, s, events))
    ensures forall a | a in RtcpAccepted(cs, s, events) && !a.1 :: !s.side.rtcp.window.Seen(a.0)
    decreases |events|
  {
    hide Step, AcceptsRtcp, RtcpIndexOf, Unwrap, CarefulRtcp, Window.Seen, BlindSpot;
    if events != [] {
      var e := events[0];
      StepValid(cs, s, e);
      var s' := Step(cs, s, e).0;
      RtcpAtMostOnce(cs, s', events[1..]);
      var rest := RtcpAccepted(cs, s', events[1..]);
      forall a | a in rest && !a.1 && s.side.rtcp.window.Seen(a.0)
        ensures false
      {
        RtcpSeenSticks(cs, s, e, a.0);
      }
      if AcceptsRtcp(cs, s, e) {
        var u := Unwrapped(s, AcceptedIndex(cs, s, e)).0;
        AcceptedRtcpIsNew(cs, s, e);
        RtcpSeenSticks(cs, s, e, u);
        assert forall a | a in rest && a.0 == u :: a.1;
      }
    }
  }

  function AcceptedIndex(cs: Suite, s: Stream, e: Event): u31
    requires s.Valid() && s.side.Receiving? && AcceptsRtcp(cs, s, e)
  {
    RtcpIndexOf(s, e.packet)
  }

  // ---- the forced ROC ----

  ghost predicate RocConsistent(s: Stream)
    requires s.Valid()
  {
    s.base.rtp.pendingRoc.Some? ==> s.base.rtp.pendingRoc.value >= s.base.rtp.Roc()
  }

  /** A pending ROC is never below the current one, and the ROC never goes down (below index 2^48). */
  lemma RocNeverDecreases(cs: Suite, s: Stream, e: Event)
    requires s.Valid() && RocConsistent(s)
    ensures var s' := Step(cs, s, e).0;
            && s'.Valid() && RocConsistent(s')
            && s'.base.rtp.window.top >= s.base.rtp.window.top
            && (s'.base.rtp.window.top < RTP_INDEX_LIMIT ==> s'.base.rtp.Roc() >= s.base.rtp.Roc())
  {
    hide Step, Base.Spend, Base.Kill, RtpIndex.Estimate, UsedMki, RocOf, RtpIndex.Seen, RtcpIndex.Seen, RtcpIndexOf;
    StepValid(cs, s, e);
    if Succeeds(cs, s, e) {
      Success(cs, s, e);
    } else {
      Otherwise(cs, s, e);
    }
    RocOfMonotone(s.base.rtp.window.top, Step(cs, s, e).0.base.rtp.window.top);
  }

  lemma RocOfMonotone(a: nat, b: nat)
    requires a <= b
    ensures b < RTP_INDEX_LIMIT ==> RocOf(a) <= RocOf(b)
  {
  }

  /** Along every run the forced ROC stays ahead of the current one, which never goes down. */
  lemma {:induction false} RocAlongRun(cs: Suite, s: Stream, events: seq<Event>)
    requires s.Valid() && RocConsistent(s)
    ensures var r := Run(cs, s, events);
            && RocConsistent(r)
            && r.base.rtp.window.top >= s.base.rtp.window.top
            && (r.base.rtp.window.top < RTP_INDEX_LIMIT ==> r.base.rtp.Roc() >= s.base.rtp.Roc())
    decreases |events|
  {
    hide Step, RocConsistent, RtpIndex.Roc;
    if events != [] {
      StepValid(cs, s, events[0]);
      RocNeverDecreases(cs, s, events[0]);
      RocAlongRun(cs, Step(cs, s, events[0]).0, events[1..]);
    }
  }

  /** So it is in every state a new stream can reach, and from each such state to every later one. */
  lemma RocOfReachable(cs: Suite, role: Role, ssrc: u32, c: StreamConfig, events: seq<Event>, later: seq<Event>)
    requires c.Valid() && SaltsFit(c) && NewStream(cs, role, ssrc, c).Ok?
    ensures NewStream(cs, role, ssrc, c).value.Valid()
    ensures var r := Run(cs, NewStream(cs, role, ssrc, c).value, events);
            && (r.base.rtp.pendingRoc.Some? ==> r.base.rtp.pendingRoc.value >= r.base.rtp.Roc())
            && (var l := Run(cs, r, later);
                l.base.rtp.window.top < RTP_INDEX_LIMIT ==> l.base.rtp.Roc() >= r.base.rtp.Roc())
  {
    hide StreamConfig.Valid, Transforms, Run;
    NewStreamValid(cs, role, ssrc, c);
    var s := NewStream(cs, role, ssrc, c).value;
    RocAlongRun(cs, s, events);
    RocAlongRun(cs, Run(cs, s, events), later);
  }

  /** While no RTP operation succeeds, a forced ROC stays pending, whatever fails in between. */
  lemma {:induction false} PendingRocWaits(cs: Suite, s: Stream, events: seq<Event>)
    requires s.Valid() && RtpIndexes(cs, s, events) == []
    requires forall k | 0 <= k < |events| :: !events[k].ForceRoc?
    ensures var r := Run(cs, s, events).base.rtp;
            r.pendingRoc == s.base.rtp.pendingRoc && r.window.top == s.base.rtp.window.top
    decreases |events|
  {
    hide Step, Base.Spend, Base.Kill, RtpIndex.Estimate, UsedMki;
    if events != [] {
      var e := events[0];
      StepValid(cs, s, e);
      assert UsedRtp(cs, s, e) == [];
      PendingRocWaits(cs, Step(cs, s, e).0, events[1..]);
      if Succeeds(cs, s, e) {
        Success(cs, s, e);
      } else {
        Otherwise(cs, s, e);
      }
    }
  }

  /**
   After `set_roc(roc)`, the first RTP packet that is accepted, however many failures come before
   it, leaves the stream at that very ROC with nothing pending.
   */
  lemma ForcedRocTakesEffect(cs: Suite, s: Stream, roc: u32, failing: seq<Event>, e: Event)
    requires s.Valid() && s.base.rtp.window.top < RTP_INDEX_LIMIT
    requires Step(cs, s, ForceRoc(roc)).1.Ok?
    requires forall k | 0 <= k < |failing| :: !failing[k].ForceRoc?
    ensures var s1 := Step(cs, s, ForceRoc(roc)).0;
            && s1.Valid()
            && (RtpIndexes(cs, s1, failing) == [] && e.IsRtp() && Succeeds(cs, Run(cs, s1, failing), e) ==>
                  var s2 := Step(cs, Run(cs, s1, failing), e).0;
                  s2.Valid() && s2.base.rtp.Roc() == roc && s2.base.rtp.pendingRoc == None)
  {
    hide Step, Base.Spend, Base.Kill, UsedMki, RtpIndex.Estimate, RtpIndex.Add, RtpIndexes;
    var s1 := Step(cs, s, ForceRoc(roc)).0;
    StepValid(cs, s, ForceRoc(roc));
    Otherwise(cs, s, ForceRoc(roc));
    if RtpIndexes(cs, s1, failing) == [] && e.IsRtp() && Succeeds(cs, Run(cs, s1, failing), e) {
      PendingRocWaits(cs, s1, failing);
      var r := Run(cs, s1, failing);
      Success(cs, r, e);
      StepValid(cs, r, e);
      AddAtPendingRoc(r.base.rtp, roc, e.h.seqNum);
    }
  }

  lemma AddAtPendingRoc(r: RtpIndex, roc: u32, seqNum: u16)
    requires r.Valid() && r.pendingRoc == Some(roc) && r.Roc() <= roc && r.window.top < RTP_INDEX_LIMIT
    ensures var r' := r.Add(r.Estimate(seqNum));
            r'.window.top >= 0 && r'.Roc() == roc && r'.pendingRoc == None
  {
    var index := r.Estimate(seqNum);
    assert index == roc * ROC_STEP + seqNum && RocOf(index) == roc;
    if index <= r.window.top {
      assert RocOf(r.window.top) == r.window.top / ROC_STEP == roc;
    }
  }

  // ---- key lives ----

  function Uses(cs: Suite, s: Stream, events: seq<Event>, isRtp: bool, mki: Mki): nat
    requires s.Valid()
    decreases |events|
  {
    if events == [] then 0
    else
      StepValid(cs, s, events[0]);
      var e := events[0];
      (if Succeeds(cs, s, e) && e.IsRtp() == isRtp && UsedMki(s, e) == mki then 1 else 0)
        + Uses(cs, Step(cs, s, e).0, events[1..], isRtp, mki)
  }

  /** Both counters of a key are zero, or neither is. */
  predicate Balanced(b: Base, mki: Mki) {
    b.Left(true, mki) == 0 <==> b.Left(false, mki) == 0
  }

  /** What spending a life under the key of m does to the lives under that of mki. */
  lemma SpendStep(b: Base, ofRtp: bool, m: Mki, isRtp: bool, mki: Mki)
    requires b.Left(ofRtp, m) > 0 && mki in b.transforms && Balanced(b, mki)
    ensures var b', used := b.Spend(ofRtp, m), if ofRtp == isRtp && m == mki then 1 else 0;
            && Balanced(b', mki)
            && b'.Left(isRtp, mki) + used <= b.Left(isRtp, mki)
            && (b'.Left(isRtp, mki) > 0 ==> b'.Left(isRtp, mki) + used == b.Left(isRtp, mki))
  {
  }

  lemma SameLives(b: Base, b': Base, mki: Mki)
    requires b'.transforms == b.transforms
    ensures b'.Left(true, mki) == b.Left(true, mki) && b'.Left(false, mki) == b.Left(false, mki)
  {
  }

  lemma KeyStep(cs: Suite, s: Stream, e: Event, isRtp: bool, mki: Mki)
    requires s.Valid() && mki in s.base.transforms && Balanced(s.base, mki)
    ensures var b, b' := s.base, Step(cs, s, e).0.base;
            var used := if Succeeds(cs, s, e) && e.IsRtp() == isRtp && UsedMki(s, e) == mki then 1 else 0;
            && mki in b'.transforms && b'.transforms[mki].transform == b.transforms[mki].transform
            && Balanced(b', mki)
            && b'.Left(isRtp, mki) + used <= b.Left(isRtp, mki)
            && (b'.Left(isRtp, mki) > 0 ==> b'.Left(isRtp, mki) + used == b.Left(isRtp, mki))
  {
    hide Step, RtpIndexOf, RtcpIndexOf, UsedMki, RtpIndex.Add, RtpIndex.Seen, RtpIndex.SetRoc, RtcpIndex.Add,
         RtcpIndex.Seen, Base.Kill, Base.Spend, Transform.Valid, StreamConfig.Valid;
    if Succeeds(cs, s, e) {
      Success(cs, s, e);
      SpendStep(s.base, e.IsRtp(), UsedMki(s, e), isRtp, mki);
      SameLives(s.base.Spend(e.IsRtp(), UsedMki(s, e)), Step(cs, s, e).0.base, mki);
    } else {
      Otherwise(cs, s, e);
      if e.Rekey? && e.Fits(s) {
        RekeyStep(cs, s, e);
        UpdateKeepsKeys(cs, s, e.config, e.order);
      }
    }
  }

  /**
   The budget of a key: along any run its uses never exceed the lives it started with, and while
   it is alive, uses and lives left add up to them exactly; RTP and RTCP die together; re-keying
   neither replaces the key nor refills it.
   */
  lemma {:induction false} KeyBudget(cs: Suite, s: Stream, events: seq<Event>, isRtp: bool, mki: Mki)
    requires s.Valid() && mki in s.base.transforms && Balanced(s.base, mki)
    ensures var b, b', used := s.base, Run(cs, s, events).base, Uses(cs, s, events, isRtp, mki);
            && mki in b'.transforms && b'.transforms[mki].transform == b.transforms[mki].transform
            && Balanced(b', mki)
            && b'.Left(isRtp, mki) + used <= b.Left(isRtp, mki)
            && (b'.Left(isRtp, mki) > 0 ==> b'.Left(isRtp, mki) + used == b.Left(isRtp, mki))
    decreases |events|
  {
    hide Step, Base.Left, Balanced, UsedMki, Succeeds;
    if events != [] {
      StepValid(cs, s, events[0]);
      KeyStep(cs, s, events[0], isRtp, mki);
      KeyBudget(cs, Step(cs, s, events[0]).0, events[1..], isRtp, mki);
    }
  }

  // ---- SRTCP indexes of a sender ----

  /** The SRTCP indexes a sender uses along a run, with the key each was used under. */
  function RtcpIndexes(cs: Suite, s: Stream, events: seq<Event>): seq<(u31, Mki)>
    requires s.Valid()
    decreases |events|
  {
    if events == [] then []
    else
      StepValid(cs, s, events[0]);
      var e := events[0];
      (if SendsRtcp(cs, s, e) then [(s.side.rtcpIndex, e.mki)] else [])
        + RtcpIndexes(cs, Step(cs, s, e).0, events[1..])
  }

  predicate SendsRtcp(cs: Suite, s: Stream, e: Event)
    requires s.Valid()
  {
    e.ProtectRtcp? && Succeeds(cs, s, e)
  }

  lemma RtcpCounterStep(cs: Suite, s: Stream, e: Event)
    requires s.Valid() && s.side.Sending?
    ensures Step(cs, s, e).0.side
         == Sending((s.side.rtcpIndex + if SendsRtcp(cs, s, e) then 1 else 0) % RTCP_ROLLBACK)
  {
    hide Step, Base.Spend, Base.Kill, RtpIndex.Estimate, UsedMki, RtpIndex.Add, RtcpIndex.Add,
         RtpIndex.Seen, RtcpIndex.Seen, RtcpIndexOf, RtpIndexOf;
    if Succeeds(cs, s, e) {
      Success(cs, s, e);
    } else {
      Otherwise(cs, s, e);
    }
  }

  /** The k-th SRTCP packet of a run uses the k-th index after the first, modulo 2^31. */
  lemma {:induction false} RtcpIndexesCount(cs: Suite, s: Stream, events: seq<Event>, k: nat)
    requires s.Valid() && s.side.Sending? && k < |RtcpIndexes(cs, s, events)|
    ensures RtcpIndexes(cs, s, events)[k].0 == (s.side.rtcpIndex + k) % RTCP_ROLLBACK
    decreases |events|
  {
    hide Step, SendsRtcp;
    var e := events[0];
    StepValid(cs, s, e);
    RtcpCounterStep(cs, s, e);
    var n := if SendsRtcp(cs, s, e) then 1 else 0;
    if k >= n {
      RtcpIndexesCount(cs, Step(cs, s, e).0, events[1..], k - n);
      CyclicSum(s.side.rtcpIndex, n, k - n);
    }
  }

  lemma CyclicSum(start: nat, n: nat, m: nat)
    ensures ((start + n) % RTCP_ROLLBACK + m) % RTCP_ROLLBACK == (start + n + m) % RTCP_ROLLBACK
  {
  }

  function Firsts(u: seq<(u31, Mki)>): (r: seq<u31>)
    ensures |r| == |u| && forall k | 0 <= k < |u| :: r[k] == u[k].0
  {
    seq(|u|, k requires 0 <= k < |u| => u[k].0)
  }

  lemma CyclicDistance(start: nat, j: nat, k: nat)
    requires j < k
    ensures (start + j) % RTCP_ROLLBACK == (start + k) % RTCP_ROLLBACK <==> (k - j) % RTCP_ROLLBACK == 0
  {
  }

  lemma SameRtcpIndexIff(cs: Suite, s: Stream, events: seq<Event>, j: nat, k: nat)
    requires s.Valid() && s.side.Sending? && j < k < |RtcpIndexes(cs, s, events)|
    ensures var u := RtcpIndexes(cs, s, events); u[j].0 == u[k].0 <==> (k - j) % RTCP_ROLLBACK == 0
  {
    hide RtcpIndexes;
    RtcpIndexesCount(cs, s, events, j);
    RtcpIndexesCount(cs, s, events, k);
    CyclicDistance(s.side.rtcpIndex, j, k);
  }

  /** A sender repeats an SRTCP index if and only if it sends more than 2^31 SRTCP packets. */
  lemma RtcpIndexesDistinctIff(cs: Suite, s: Stream, events: seq<Event>)
    requires s.Valid() && s.side.Sending?
    ensures Distinct(Firsts(RtcpIndexes(cs, s, events))) <==> |RtcpIndexes(cs, s, events)| <= RTCP_ROLLBACK
  {
    hide RtcpIndexes, Firsts;
    var u := RtcpIndexes(cs, s, events);
    var f := Firsts(u);
    if |u| > RTCP_ROLLBACK {
      SameRtcpIndexIff(cs, s, events, 0, RTCP_ROLLBACK);
      assert f[0] == f[RTCP_ROLLBACK];
    } else {
      forall j, k | 0 <= j < k < |f|
        ensures f[j] != f[k]
      {
        SameRtcpIndexIff(cs, s, events, j, k);
      }
    }
  }

  /**
   One key protects two SRTCP packets under the same index if and only if it is used for two
   packets of the stream that are a multiple of 2^31 apart.
   */
  lemma KeyIndexesDistinctIff(cs: Suite, s: Stream, events: seq<Event>)
    requires s.Valid() && s.side.Sending?
    ensures var u := RtcpIndexes(cs, s, events);
            Distinct(u) <==> forall j, k | 0 <= j < k < |u| && (k - j) % RTCP_ROLLBACK == 0 :: u[j].1 != u[k].1
  {
    hide RtcpIndexes;
    var u := RtcpIndexes(cs, s, events);
    forall j, k | 0 <= j < k < |u|
      ensures u[j].0 == u[k].0 <==> (k - j) % RTCP_ROLLBACK == 0
    {
      SameRtcpIndexIff(cs, s, events, j, k);
    }
  }

  /** Re-keying files no other MKI than this one. */
  ghost predicate KeepsToKey(e: Event, mki: Mki) {
    e.Rekey? ==> forall k | k in e.config.keys :: k.mki == mki
  }

  lemma OnlyKey(cs: Suite, c: StreamConfig, mki: Mki)
    requires c.Valid() && SaltsFit(c) && Transforms(cs, c).Ok?
    requires forall k | k in c.keys :: k.mki == mki
    ensures Transforms(cs, c).value.Keys <= {mki}
  {
    hide StreamConfig.Valid, NewTransform, GoodEntry;
    ValidationSound(cs, c);
    TransformsBuilt(cs, c, |c.keys|);
    forall i | i in Transforms(cs, c).value
      ensures i == mki
    {
      InMkisUpTo(c, |c.keys|, i);
    }
  }

  /** Re-keying with a single master key leaves it the only one, with the lives it had. */
  lemma RekeyKeepsToKey(cs: Suite, s: Stream, e: Event, mki: Mki)
    requires s.Valid() && e.Rekey? && e.Fits(s) && KeepsToKey(e, mki) && s.base.transforms.Keys <= {mki}
    ensures var b, b' := s.base, Step(cs, s, e).0.base;
            && b.transforms.Keys <= b'.transforms.Keys <= {mki}
            && (mki in b.transforms ==> b'.transforms == b.transforms)
  {
    hide StreamConfig.Valid, Transforms, Transform.Valid;
    RekeyStep(cs, s, e);
    var added := Transforms(cs, e.config);
    if added.Ok? {
      OnlyKey(cs, e.config, mki);
      MergeKeeps(s.base.transforms, added.value, e.order);
    }
  }

  /** What is left of the single key, or the most it could be given. */
  function Budget(b: Base, mki: Mki): nat {
    if mki in b.transforms then b.Left(false, mki) else MAX_RTCP_SESSION_KEY_LIVES
  }

  lemma BudgetStep(cs: Suite, s: Stream, e: Event, mki: Mki)
    requires s.Valid() && s.base.transforms.Keys <= {mki} && KeepsToKey(e, mki)
    ensures var s' := Step(cs, s, e).0;
            && s'.base.transforms.Keys <= {mki}
            && (if SendsRtcp(cs, s, e) then 1 else 0) + Budget(s'.base, mki) <= Budget(s.base, mki)
  {
    hide Step, RtpIndex.Estimate, RtpIndex.Add, UsedMki, Transform.Valid, StreamConfig.Valid, KeepsToKey;
    if Succeeds(cs, s, e) {
      Success(cs, s, e);
      assert UsedMki(s, e) in s.base.transforms;
    } else {
      Otherwise(cs, s, e);
      if e.Rekey? && e.Fits(s) {
        RekeyKeepsToKey(cs, s, e, mki);
      }
    }
  }

  lemma {:induction false} RtcpUsesBounded(cs: Suite, s: Stream, events: seq<Event>, mki: Mki)
    requires s.Valid() && s.base.transforms.Keys <= {mki}
    requires forall k | 0 <= k < |events| :: KeepsToKey(events[k], mki)
    ensures |RtcpIndexes(cs, s, events)| <= Budget(s.base, mki)
    decreases |events|
  {
    hide Step, Budget, KeepsToKey, SendsRtcp;
    if events != [] {
      StepValid(cs, s, events[0]);
      BudgetStep(cs, s, events[0], mki);
      RtcpUsesBounded(cs, Step(cs, s, events[0]).0, events[1..], mki);
    }
  }

  /**
   With one master key, whatever re-keyings repeat it, its lives keep the counter from repeating.
   */
  lemma SingleKeyNeverRepeats(cs: Suite, s: Stream, events: seq<Event>, mki: Mki)
    requires s.Valid() && s.side.Sending? && s.base.transforms.Keys <= {mki}
    requires forall k | 0 <= k < |events| :: KeepsToKey(events[k], mki)
    ensures Distinct(Firsts(RtcpIndexes(cs, s, events)))
  {
    RtcpUsesBounded(cs, s, events, mki);
    RtcpIndexesDistinctIff(cs, s, events);
  }

  // ---- two keys share the counter but not the lives ----

  lemma {:induction false} RtcpIndexesConcat(cs: Suite, s: Stream, xs: seq<Event>, ys: seq<Event>)
    requires s.Valid()
    ensures RtcpIndexes(cs, s, xs + ys) == RtcpIndexes(cs, s, xs) + RtcpIndexes(cs, Run(cs, s, xs), ys)
    decreases |xs|
  {
    hide Step, SendsRtcp;
    if xs == [] {
      assert xs + ys == ys;
    } else {
      assert (xs + ys)[0] == xs[0] && (xs + ys)[1..] == xs[1..] + ys;
      StepValid(cs, s, xs[0]);
      RtcpIndexesConcat(cs, Step(cs, s, xs[0]).0, xs[1..], ys);
    }
  }

  function Copies(e: Event, n: nat): (r: seq<Event>)
    ensures |r| == n && forall k | 0 <= k < n :: r[k] == e
  {
    seq(n, _ => e)
  }

  /** A counter-mode key with lives left always succeeds, at the cost of one life. */
  lemma CmRtcpSucceeds(cs: Suite, s: Stream, e: Event)
    requires s.Valid() && s.side.Sending? && e.ProtectRtcp? && RTCP_HEADER_SIZE <= |e.packet|
    requires s.base.Left(false, e.mki) > 0 && s.base.transforms[e.mki].transform.Cm?
    ensures SendsRtcp(cs, s, e)
    ensures var b, b' := s.base.transforms, Step(cs, s, e).0.base.transforms;
            && b'.Keys == b.Keys
            && b'[e.mki].transform == b[e.mki].transform
            && b'[e.mki].lives.rtcp == b[e.mki].lives.rtcp - 1
            && (forall m | m in b && m != e.mki :: b'[m] == b[m])
  {
  }

  /** n packets under one counter-mode key: n lives and n indexes. */
  lemma {:induction false} ManyUses(cs: Suite, s: Stream, e: Event, n: nat)
    requires s.Valid() && s.side.Sending? && e.ProtectRtcp? && RTCP_HEADER_SIZE <= |e.packet|
    requires e.mki in s.base.transforms && s.base.transforms[e.mki].transform.Cm?
    requires n <= s.base.Left(false, e.mki)
    ensures |RtcpIndexes(cs, s, Copies(e, n))| == n
    ensures var r := Run(cs, s, Copies(e, n)).base.transforms;
            forall m | m in s.base.transforms && m != e.mki :: m in r && r[m] == s.base.transforms[m]
    decreases n
  {
    hide Step, SendsRtcp, Transform.Valid, Base.Spend;
    if n > 0 {
      CmRtcpSucceeds(cs, s, e);
      StepValid(cs, s, e);
      assert Copies(e, n)[1..] == Copies(e, n - 1);
      hide Copies;
      ManyUses(cs, Step(cs, s, e).0, e, n - 1);
    }
  }

  lemma Sandwich(cs: Suite, s: Stream, e: Event, many: seq<Event>)
    requires s.Valid() && s.side.Sending? && e.ProtectRtcp? && SendsRtcp(cs, s, e)
    requires Step(cs, s, e).0.Valid() && SendsRtcp(cs, Run(cs, Step(cs, s, e).0, many), e)
    ensures var s1 := Step(cs, s, e).0;
            RtcpIndexes(cs, s, [e] + many + [e])
            == [(s.side.rtcpIndex, e.mki)] + RtcpIndexes(cs, s1, many) + [(Run(cs, s1, many).side.rtcpIndex, e.mki)]
  {
    hide Step, SendsRtcp;
    var s1 := Step(cs, s, e).0;
    StepValid(cs, s, e);
    var s2, events := Run(cs, s1, many), [e] + many + [e];
    assert events[0] == e && events[1..] == many + [e];
    RtcpIndexesConcat(cs, s1, many, [e]);
    StepValid(cs, s2, e);
    assert [e][1..] == [];
    assert RtcpIndexes(cs, s2, [e]) == [(s2.side.rtcpIndex, e.mki)] + RtcpIndexes(cs, Step(cs, s2, e).0, []);
  }

  /**
   With two master keys the counter may wrap within the lives of both, and the first key then
   protects two SRTCP packets under the same index: once before and once after 2^31 - 1 packets
   under the other key.
   */
  lemma TwoKeysCanRepeat(cs: Suite, s: Stream, first: Event, other: Event)
    requires s.Valid() && s.side.Sending?
    requires first.ProtectRtcp? && RTCP_HEADER_SIZE <= |first.packet|
    requires other.ProtectRtcp? && RTCP_HEADER_SIZE <= |other.packet|
    requires first.mki != other.mki
    requires first.mki in s.base.transforms && s.base.transforms[first.mki].transform.Cm?
    requires other.mki in s.base.transforms && s.base.transforms[other.mki].transform.Cm?
    requires s.base.Left(false, first.mki) >= 2 && s.base.Left(false, other.mki) >= RTCP_ROLLBACK - 1
    ensures var u := RtcpIndexes(cs, s, [first] + Copies(other, RTCP_ROLLBACK - 1) + [first]);
            |u| == RTCP_ROLLBACK + 1 && u[0] == u[RTCP_ROLLBACK] == (s.side.rtcpIndex, first.mki)
  {
    hide Copies, Step, SendsRtcp, RtcpIndexes, Run, Base.Valid;
    var many := Copies(other, RTCP_ROLLBACK - 1);
    CmRtcpSucceeds(cs, s, first);
    StepValid(cs, s, first);
    var s1 := Step(cs, s, first).0;
    ManyUses(cs, s1, other, RTCP_ROLLBACK - 1);
    CmRtcpSucceeds(cs, Run(cs, s1, many), first);
    Sandwich(cs, s, first, many);
    RtcpIndexesCount(cs, s, [first] + many + [first], RTCP_ROLLBACK);
  }

  lemma CounterMode(cs: Suite, c: StreamConfig, key: MasterKey)
    requires |key.salt| <= 16 && !c.rtpProfile.IsGcm() && NewTransform(cs, c, key).Ok?
    ensures NewTransform(cs, c, key).value.Cm?
  {
  }

  lemma {:induction false} AllCounterMode(cs: Suite, c: StreamConfig, n: nat)
    requires SaltsFit(c) && n <= |c.keys| && !c.rtpProfile.IsGcm() && TransformsUpTo(cs, c, n).Ok?
    ensures forall m | m in TransformsUpTo(cs, c, n).value :: TransformsUpTo(cs, c, n).value[m].transform.Cm?
  {
    hide NewTransform;
    if n > 0 {
      AllCounterMode(cs, c, n - 1);
      CounterMode(cs, c, c.keys[n - 1]);
    }
  }

  const FULL_LIVES: KeysLifetime := Lives(MAX_RTP_SESSION_KEY_LIVES, 0, MAX_RTCP_SESSION_KEY_LIVES, 0)

  /** Two counter-mode keys with the MKIs 1 and 2, and all the lives a key can have. */
  const TWO_KEYS := StreamConfig(
    [MasterKey(seq(16, _ => 0), [], Some([1]), FULL_LIVES), MasterKey(seq(16, _ => 1), [], Some([2]), FULL_LIVES)],
    Aes128CmHmacSha180, Aes128CmHmacSha180, 128, false)

  lemma TwoKeysValid()
    ensures TWO_KEYS.Valid() && SaltsFit(TWO_KEYS)
    ensures !TWO_KEYS.rtpProfile.IsGcm() && !TWO_KEYS.rtcpProfile.IsGcm()
  {
    assert TWO_KEYS.keys[0].mki.value[0] != TWO_KEYS.keys[1].mki.value[0];
  }

  /** There are senders as `TwoKeysCanRepeat` asks for: a new one with two such keys. */
  lemma TwoKeySenderExists(cs: Suite, ssrc: u32)
    ensures TWO_KEYS.Valid() && SaltsFit(TWO_KEYS) && NewStream(cs, Sender, ssrc, TWO_KEYS).Ok?
    ensures var s := NewStream(cs, Sender, ssrc, TWO_KEYS).value;
            && s.Valid() && s.side.Sending?
            && (forall m | m in {Some([1]), Some([2])} ::
                  && m in s.base.transforms && s.base.transforms[m].transform.Cm?
                  && s.base.Left(false, m) == RTCP_ROLLBACK)
  {
    TwoKeysValid();
    var c := TWO_KEYS;
    assert c.keys[0].mki == Some([1]) && c.keys[1].mki == Some([2]) && |c.keys| == 2;
    assert c.keys[0].lifetime.rtcp == c.keys[1].lifetime.rtcp == RTCP_ROLLBACK;
    hide StreamConfig.Valid, Transforms, SaltsFit, BuiltFrom;
    ValidationSound(cs, c);
    NewStreamValid(cs, Sender, ssrc, c);
    AllFiledCounterMode(cs, c);
    assert Filed(cs, c, 0, Transforms(cs, c).value) && Filed(cs, c, 1, Transforms(cs, c).value);
  }

  lemma AllFiledCounterMode(cs: Suite, c: StreamConfig)
    requires SaltsFit(c) && !c.rtpProfile.IsGcm() && Transforms(cs, c).Ok?
    ensures forall m | m in Transforms(cs, c).value :: Transforms(cs, c).value[m].transform.Cm?
  {
    AllCounterMode(cs, c, |c.keys|);
  }
}
