/** What each operation of a stream answers and leaves behind, case by case. */
module StreamOutcomes {
  import opened Types
  import opened Crypto
  import opened Header
  import opened SlidingWindow
  import opened ReplayIndex
  import opened Trailer
  import opened Transform
  import opened Packets
  import opened StreamConfig
  import opened StreamSpec
  import opened TwoParty

  // ---- new streams ----

  /** A new stream has index 0, empty windows, the configured size and flag, and one entry for each key. */
  lemma NewStreamOutcome(cs: Suite, role: Role, ssrc: u32, c: StreamConfig)
    requires c.Valid() && SaltsFit(c)
    ensures var r := NewStream(cs, role, ssrc, c);
            if c.rtpProfile.IsGcm() != c.rtcpProfile.IsGcm() then r == Err(TransformDispatch)
            else
              && r.Ok? && c.keys != []
              && var b := r.value.base;
                 && b.ssrc == ssrc && b.allowSendRepeat == c.allowSendRepeat
                 && b.mkiLen == (if c.keys[0].mki == None then 0 else |c.keys[0].mki.value|)
                 && b.rtp == RtpIndex(Window(0, {}, c.replayWindowSize), None)
                 && |b.transforms.Keys| == |c.keys|
                 && (forall k | 0 <= k < |c.keys| :: Filed(cs, c, k, b.transforms))
                 && r.value.side == match role
                                    case Sender => Sending(0)
                                    case Receiver => Receiving(RtcpIndex(Window(0, {}, c.replayWindowSize)),
                                                               c.rtpProfile.TagLen(), c.rtcpProfile.TagLen())
  {
    ValidNonEmpty(c);
    hide StreamConfig.Valid, Transforms, Filed;
    ValidationSound(cs, c);
  }

  // ---- re-keying ----

  /** A configuration a stream can be updated with: same MKI length, and no other key under an MKI it has. */
  predicate UpdateAllowed(cs: Suite, s: Stream, c: StreamConfig)
    requires SaltsFit(c) && c.keys != []
  {
    && c.MkiLen() == s.base.mkiLen
    && Transforms(cs, c).Ok?
    && forall m | m in Transforms(cs, c).value && m in s.base.transforms ::
         Transforms(cs, c).value[m].transform == s.base.transforms[m].transform
  }

  lemma {:induction false} MergeOutcome(keys: KeyMap, added: KeyMap, order: seq<Mki>)
    ensures (forall m | m in added && m in keys :: added[m].transform == keys[m].transform) ==>
              Merge(keys, added, order).1
    ensures Merge(keys, added, order).1 ==>
              forall m | m in order && m in added ::
                && m in Merge(keys, added, order).0
                && Merge(keys, added, order).0[m].transform == added[m].transform
                && (m in keys ==> added[m].transform == keys[m].transform)
                && (m !in keys ==> Merge(keys, added, order).0[m] == added[m])
    decreases |order|
  {
    if order != [] {
      var m := order[0];
      var keys' := if m in added && m !in keys then keys[m := added[m]] else keys;
      MergeOutcome(keys', added, order[1..]);
      MergeKeeps(keys', added, order[1..]);
      assert order == [m] + order[1..];
    }
  }

  lemma UpdateOutcome(cs: Suite, s: Stream, c: StreamConfig, order: seq<Mki>)
    requires s.Valid() && c.Valid() && SaltsFit(c) && c.keys != []
    ensures var (s', r) := Update(cs, s, c, order);
            && (UpdateAllowed(cs, s, c) ==> r.Ok?)
            && (r.Ok? && CoversKeys(c, order) ==> UpdateAllowed(cs, s, c))
            && (r.Err? ==>
                  && r.error == (if c.MkiLen() == s.base.mkiLen && c.rtpProfile.IsGcm() != c.rtcpProfile.IsGcm()
                                 then TransformDispatch else InvalidProfile)
                  && s' == s.(base := s.base.(transforms := s'.base.transforms)))
  {
    ValidationSound(cs, c);
    hide StreamConfig.Valid, Transforms, Merge, Filed, GoodEntry;
    if Transforms(cs, c).Ok? {
      MergeOutcome(s.base.transforms, Transforms(cs, c).value, order);
      CoveredKeys(cs, c, order);
    }
  }

  /** What is filed is a key of the configuration, so an order that covers these covers all that is filed. */
  lemma CoveredKeys(cs: Suite, c: StreamConfig, order: seq<Mki>)
    requires c.Valid() && SaltsFit(c) && Transforms(cs, c).Ok?
    ensures CoversKeys(c, order) ==> forall m | m in Transforms(cs, c).value :: m in order
  {
    hide StreamConfig.Valid, NewTransform, GoodEntry, Filed;
    ValidationSound(cs, c);
    TransformsBuilt(cs, c, |c.keys|);
    forall m | m in Transforms(cs, c).value && CoversKeys(c, order)
      ensures m in order
    {
      InMkisUpTo(c, |c.keys|, m);
      var k :| 0 <= k < |c.keys| && c.keys[k].mki == m;
      assert c.keys[k] in c.keys;
    }
  }

  /** No entry has changed, and every new one is the one the configuration files under that MKI. */
  ghost predicate Grown(cs: Suite, c: StreamConfig, before: KeyMap, after: KeyMap)
    requires SaltsFit(c) && Transforms(cs, c).Ok?
  {
    && (forall m | m in before :: m in after && after[m] == before[m])
    && (forall m | m in after && m !in before :: m in Transforms(cs, c).value && after[m] == Transforms(cs, c).value[m])
  }

  /** The stream has, under the MKI of each key of the configuration, the transform of that key. */
  ghost predicate HasKeys(cs: Suite, c: StreamConfig, s: Stream)
    requires SaltsFit(c)
  {
    forall k | 0 <= k < |c.keys| :: HasKey(cs, c, k, s.base.transforms)
  }

  predicate HasKey(cs: Suite, c: StreamConfig, k: nat, keys: KeyMap)
    requires k < |c.keys| && SaltsFit(c)
  {
    var key := c.keys[k];
    assert key in c.keys;
    key.mki in keys && BuiltFrom(cs, c, key, keys[key.mki].transform)
  }

  /** The stream has taken the size of the window and the flag; its indexes are what they were. */
  predicate Reconfigured(c: StreamConfig, s: Stream, s': Stream) {
    && s'.base.rtp == s.base.rtp.(window := s.base.rtp.window.(size := c.replayWindowSize))
    && s'.base.allowSendRepeat == c.allowSendRepeat
    && s'.base.ssrc == s.base.ssrc && s'.base.mkiLen == s.base.mkiLen
    && (s.side.Sending? ==> s'.side == s.side)
    && (s.side.Receiving? ==>
          s'.side == s.side.(rtcp := RtcpIndex(s.side.rtcp.window.(size := c.replayWindowSize))))
  }

  lemma UpdatedGrows(cs: Suite, s: Stream, c: StreamConfig, order: seq<Mki>)
    requires s.Valid() && c.Valid() && SaltsFit(c) && Update(cs, s, c, order).1.Ok?
    ensures Transforms(cs, c).Ok? && Grown(cs, c, s.base.transforms, Update(cs, s, c, order).0.base.transforms)
  {
    hide StreamConfig.Valid, Transforms, Merge;
    MergeKeeps(s.base.transforms, Transforms(cs, c).value, order);
  }

  lemma UpdatedKeys(cs: Suite, s: Stream, c: StreamConfig, order: seq<Mki>)
    requires s.Valid() && c.Valid() && SaltsFit(c) && Update(cs, s, c, order).1.Ok? && CoversKeys(c, order)
    ensures HasKeys(cs, c, Update(cs, s, c, order).0)
  {
    ValidationSound(cs, c);
    hide StreamConfig.Valid, Transforms, Merge, GoodEntry, BuiltFrom, CoversKeys, Stream.Valid;
    var added := Transforms(cs, c).value;
    MergeOutcome(s.base.transforms, added, order);
    CoveredKeys(cs, c, order);
    forall k | 0 <= k < |c.keys|
      ensures HasKey(cs, c, k, Update(cs, s, c, order).0.base.transforms)
    {
      assert Filed(cs, c, k, added);
    }
  }

  /** After a successful update every key of the configuration is there, and its size and flag are taken. */
  lemma UpdatedStream(cs: Suite, s: Stream, c: StreamConfig, order: seq<Mki>)
    requires s.Valid() && c.Valid() && SaltsFit(c) && Update(cs, s, c, order).1.Ok?
    ensures var s' := Update(cs, s, c, order).0;
            && Reconfigured(c, s, s')
            && Transforms(cs, c).Ok? && Grown(cs, c, s.base.transforms, s'.base.transforms)
            && (CoversKeys(c, order) ==> HasKeys(cs, c, s'))
  {
    UpdatedGrows(cs, s, c, order);
    hide StreamConfig.Valid, Transforms, Merge, HasKeys, CoversKeys, Stream.Valid, Grown;
    if CoversKeys(c, order) {
      UpdatedKeys(cs, s, c, order);
    }
  }

  // ---- the forced ROC ----

  lemma SetRocOutcome(s: Stream, roc: u32)
    requires s.Valid()
    ensures var (s', r) := SetRoc(s, roc);
            if roc < s.base.rtp.Roc() then s' == s && r == Err(InvalidPacketIndex)
            else r == Ok(()) && s' == s.(base := s.base.(rtp := RtpIndex(s.base.rtp.window, Some(roc))))
  {
  }

  /** With a forced ROC the index of a packet is that ROC and its sequence number, whatever came before. */
  lemma ForcedIndex(r: RtpIndex, seqNum: u16)
    requires r.Valid() && r.pendingRoc.Some?
    ensures r.Estimate(seqNum) == r.pendingRoc.value * 0x1_0000 + seqNum
  {
  }

  // ---- sending ----

  /** What a sender answers to an RTP packet, in the order of its checks. */
  lemma SendRtpOutcome(cs: Suite, s: Stream, h: RtpHeader, plain: Bytes, mki: Mki)
    requires s.Valid() && s.side.Sending? && h.len <= |plain|
    ensures var (s', r) := SendRtp(cs, s, h, plain, mki);
            var i := s.base.rtp.Estimate(h.seqNum);
            if s.base.rtp.Seen(i) && !s.base.allowSendRepeat then r == Err(InvalidPacketIndex)
            else if mki !in s.base.transforms then r == Err(InvalidMki)
            else
              var e := s.base.transforms[mki];
              if e.lives.rtp == 0 then r == Err(KeyLimit(true, true, mki, s.base.ssrc))
              else
                && e.transform.Valid()
                && r == e.transform.RtpProtected(cs, plain, h, RocOf(i))
                && (e.transform.Cm? ==> r.Ok?)
                && (r.Ok? ==>
                      s' == s.(base := s.base.Spend(true, mki).(rtp := RtpIndex(s.base.rtp.window.Add(i), None))))
  {
    hide Transform.RtpProtected, RtpIndex.Estimate, RtpIndex.Seen, Base.Spend, Transform.Valid;
    if mki in s.base.transforms {
      RtpSendVerdict(cs, s.base.transforms[mki].transform, plain, h, RocOf(s.base.rtp.Estimate(h.seqNum)));
    }
  }

  lemma SendRtcpOutcome(cs: Suite, s: Stream, h: RtcpHeader, plain: Bytes, mki: Mki)
    requires s.Valid() && s.side.Sending? && RTCP_HEADER_SIZE <= |plain|
    ensures var (s', r) := SendRtcp(cs, s, h, plain, mki);
            if mki !in s.base.transforms then r == Err(InvalidMki)
            else
              var e := s.base.transforms[mki];
              if e.lives.rtcp == 0 then r == Err(KeyLimit(false, true, mki, s.base.ssrc))
              else
                && e.transform.Valid()
                && r == e.transform.RtcpProtected(cs, plain, h, s.side.rtcpIndex)
                && (e.transform.Cm? ==> r.Ok?)
                && (r.Ok? ==>
                      && s'.base == s.base.Spend(false, mki)
                      && s'.side == Sending(if s.side.rtcpIndex == 0x7FFF_FFFF then 0 else s.side.rtcpIndex + 1))
  {
    hide Transform.RtcpProtected, Base.Spend, Transform.Valid;
    if mki in s.base.transforms {
      RtcpSendVerdict(cs, s.base.transforms[mki].transform, plain, h, s.side.rtcpIndex);
    }
  }

  // ---- receiving ----

  /** The MKI is read from right before the tag, when there is room for it after the header. */
  lemma GetMkiOutcome(s: Stream, packet: Bytes, headerLen: nat, isRtp: bool)
    requires s.side.Receiving?
    ensures var r := s.GetMki(packet, headerLen, isRtp);
            var tagLen := if isRtp then s.side.rtpTagLen else s.side.rtcpTagLen;
            if s.base.mkiLen == 0 then r == Ok(None)
            else if headerLen + s.base.mkiLen + tagLen > |packet| then r == Err(InvalidPacket)
            else r.Ok? && r.value.Some? && |r.value.value| == s.base.mkiLen && CarriesMki(packet, tagLen, r.value)
  {
  }

  /** What a receiver answers to an RTP packet, in the order of its checks. */
  lemma ReceiveRtpOutcome(cs: Suite, s: Stream, h: RtpHeader, packet: Bytes)
    requires s.Valid() && s.side.Receiving?
    ensures var (s', r) := ReceiveRtp(cs, s, h, packet);
            var i, mki := s.base.rtp.Estimate(h.seqNum), s.GetMki(packet, h.len, true);
            if s.base.rtp.Seen(i) then r == Err(InvalidPacketIndex)
            else if mki.Err? then r == Err(InvalidPacket)
            else if mki.value !in s.base.transforms then r == Err(InvalidMki)
            else
              var e := s.base.transforms[mki.value];
              if e.lives.rtp == 0 then r == Err(KeyLimit(true, true, mki.value, s.base.ssrc))
              else
                && e.transform.Valid()
                && r == e.transform.RtpUnprotected(cs, packet, h, RocOf(i))
                && (r.Ok? ==>
                      && s'.side == s.side
                      && s'.base == s.base.Spend(true, mki.value).(rtp := RtpIndex(s.base.rtp.window.Add(i), None)))
  {
    hide Transform.RtpUnprotected, RtpIndex.Estimate, RtpIndex.Seen, Base.Spend, Transform.Valid;
  }

  lemma ReceiveRtcpOutcome(cs: Suite, s: Stream, h: RtcpHeader, packet: Bytes)
    requires s.Valid() && s.side.Receiving?
    ensures var (s', r) := ReceiveRtcp(cs, s, h, packet);
            var trailerLen := 4 + s.base.mkiLen + s.side.rtcpTagLen;
            if |packet| < RTCP_HEADER_SIZE + trailerLen then r == Err(InvalidPacket)
            else
              var i := U32At(packet, |packet| - trailerLen) % 0x8000_0000;
              var mki := s.GetMki(packet, RTCP_HEADER_SIZE, false);
              if s.side.rtcp.Seen(i) then r == Err(InvalidPacketIndex)
              else if mki.Err? then r == Err(InvalidPacket)
              else if mki.value !in s.base.transforms then r == Err(InvalidMki)
              else
                var e := s.base.transforms[mki.value];
                if e.lives.rtcp == 0 then r == Err(KeyLimit(false, true, mki.value, s.base.ssrc))
                else
                  && e.transform.Valid()
                  && r == e.transform.RtcpUnprotected(cs, packet, h, i, trailerLen)
                  && (r.Ok? ==>
                        && s'.base == s.base.Spend(false, mki.value)
                        && s'.side == s.side.(rtcp := s.side.rtcp.Add(i)))
  {
    hide Transform.RtcpUnprotected, RtcpIndex.Seen, RtcpIndex.Add, Base.Spend, Transform.Valid, U32At;
  }

  /**
   So a receiver takes a packet for `plain` if and only if the index is new, the key is alive, and
   the packet is what a sender with this key makes of `plain` under the estimated index.
   */
  lemma ReceivesExactly(cs: Suite, s: Stream, h: RtpHeader, plain: Bytes, packet: Bytes, mki: Mki)
    requires s.Valid() && s.side.Receiving? && h.len <= |plain| && mki in s.base.transforms
    requires Readable(s, mki, s.base.transforms[mki].transform)
    requires s.GetMki(packet, h.len, true) == Ok(mki)
    ensures var i, t := s.base.rtp.Estimate(h.seqNum), s.base.transforms[mki].transform;
            ReceiveRtp(cs, s, h, packet).1 == Ok(plain) && CarriesMki(packet, t.RtpTagLen(), mki) <==>
              && !s.base.rtp.Seen(i) && s.base.Left(true, mki) > 0
              && t.RtpProtected(cs, plain, h, RocOf(i)) == Ok(packet)
  {
    hide Transform.RtpProtected, Transform.RtpUnprotected, RtpIndex.Estimate, RtpIndex.Seen, Base.Spend,
         Transform.Valid, Stream.GetMki, CarriesMki, ReceiveRtp;
    var i, t := s.base.rtp.Estimate(h.seqNum), s.base.transforms[mki].transform;
    ReceiveRtpOutcome(cs, s, h, packet);
    RtpExact(cs, t, plain, packet, h, RocOf(i));
  }

  lemma ReceivesRtcpExactly(cs: Suite, s: Stream, h: RtcpHeader, plain: Bytes, packet: Bytes, mki: Mki, e: bool)
    requires s.Valid() && s.side.Receiving? && RTCP_HEADER_SIZE <= |plain| && mki in s.base.transforms
    requires Readable(s, mki, s.base.transforms[mki].transform)
    requires |packet| >= RTCP_HEADER_SIZE + RtcpTrailer(s) && s.GetMki(packet, RTCP_HEADER_SIZE, false) == Ok(mki)
    ensures var i, t := RtcpIndexOf(s, packet), s.base.transforms[mki].transform;
            && ReceiveRtcp(cs, s, h, packet).1 == Ok(plain)
            && CarriesMki(packet, t.RtcpTagLen(), mki) && CarriesWord(packet, t.RtcpTrailerLen(), EsrtcpWord(e, i)) <==>
              && !s.side.rtcp.Seen(i) && s.base.Left(false, mki) > 0
              && t.SrtcpPacket(cs, plain, h, i, e) == Ok(packet)
  {
    hide Transform.SrtcpPacket, Transform.RtcpUnprotected, RtcpIndex.Seen, RtcpIndex.Add, Base.Spend, Transform.Valid,
         Stream.GetMki, CarriesMki, CarriesWord, ReceiveRtcp, EsrtcpWord, U32At;
    var i, t := RtcpIndexOf(s, packet), s.base.transforms[mki].transform;
    ReceiveRtcpOutcome(cs, s, h, packet);
    RtcpExact(cs, t, plain, packet, h, i, e);
  }
}
