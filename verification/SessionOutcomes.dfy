/** What each public call of a session answers and leaves behind, case by case. */
module SessionOutcomes {
  import opened Types
  import opened Crypto
  import opened Header
  import opened ReplayIndex
  import opened StreamConfig
  import opened StreamSpec
  import opened StreamRuns
  import opened StreamOutcomes
  import opened SessionSpec
  import opened SessionRuns

  // ---- which stream a packet is for ----

  /** The SSRC in the header of a packet. */
  function PacketSsrc(c: Call): Result<u32>
    requires c.IsPacket()
  {
    if c.CallRtp? then
      var h :- ParseRtp(c.packet);
      Ok(h.ssrc)
    else
      var h :- ParseRtcp(c.packet);
      Ok(h.ssrc)
  }

  /** The event of a stream that a packet call is, by the role of the session. */
  predicate EventOf(role: Role, c: Call, e: Event)
    requires c.IsPacket() && PacketSsrc(c).Ok?
  {
    match c
    case CallRtp(packet, mki) =>
      e == (if role.Sender? then ProtectRtp(ParseRtp(packet).value, packet, mki)
            else UnprotectRtp(ParseRtp(packet).value, packet))
    case CallRtcp(packet, mki) =>
      e == (if role.Sender? then ProtectRtcp(ParseRtcp(packet).value, packet, mki)
            else UnprotectRtcp(ParseRtcp(packet).value, packet))
  }

  /**
   A packet goes to the stream of the SSRC in its header; without one, to a new stream of the
   template; and otherwise it is refused, and changes nothing.
   */
  lemma PacketRouted(cs: Suite, y: Session, c: Call)
    requires y.Valid() && c.IsPacket()
    ensures PacketSsrc(c).Err? ==> Do(cs, y, c) == (y, Err(InvalidPacket)) && !Reaches(cs, y, c)
    ensures PacketSsrc(c).Ok? ==>
              var ssrc := PacketSsrc(c).value;
              if ssrc in y.streams then
                && Reaches(cs, y, c)
                && Target(cs, y, c).0 == ssrc && Target(cs, y, c).1 == y.streams[ssrc]
                && EventOf(y.role, c, Target(cs, y, c).2)
              else if y.template.None? then !Reaches(cs, y, c) && Do(cs, y, c) == (y, Err(StreamNotFound))
              else if NewStream(cs, y.role, ssrc, y.template.value).Err? then
                && !Reaches(cs, y, c)
                && Do(cs, y, c) == (y, Err(NewStream(cs, y.role, ssrc, y.template.value).error))
              else
                && Reaches(cs, y, c)
                && Target(cs, y, c).0 == ssrc
                && Target(cs, y, c).1 == Entry(NewStream(cs, y.role, ssrc, y.template.value).value, true)
                && EventOf(y.role, c, Target(cs, y, c).2)
  {
    hide ParseRtp, ParseRtcp, NewStream, Session.Valid;
    if PacketSsrc(c).Ok? {
      ValidTemplate(y);
    }
  }

  lemma ValidTemplate(y: Session)
    requires y.Valid()
    ensures y.template.Some? ==> y.template.value.Valid() && SaltsFit(y.template.value)
  {
  }

  /** A packet for an unknown SSRC is a step of a new stream of the template, kept if it succeeds. */
  lemma TemplateSpawns(cs: Suite, y: Session, c: Call, ssrc: u32, s: Stream)
    requires y.Valid() && c.IsPacket() && PacketSsrc(c) == Ok(ssrc) && ssrc !in y.streams
    requires y.template.Some? && NewStream(cs, y.role, ssrc, y.template.value) == Ok(s)
    ensures s.Valid() && Reaches(cs, y, c)
    ensures var (s', r) := Step(cs, s, Target(cs, y, c).2);
            && EventOf(y.role, c, Target(cs, y, c).2)
            && Do(cs, y, c).1 == r
            && (r.Ok? ==> Do(cs, y, c).0 == y.(streams := y.streams[ssrc := Entry(s', true)]))
            && (r.Err? ==> Do(cs, y, c).0.streams.Keys == y.streams.Keys)
  {
    hide Do, Step, NewStream, Session.Find, Request, Session.Valid, PacketSsrc, EventOf;
    ValidTemplate(y);
    PacketRouted(cs, y, c);
    Reached(cs, y, c);
  }

  /** How a stream sends, or receives, the packet of a call. */
  function Serve(cs: Suite, s: Stream, c: Call): (Stream, Result<Bytes>)
    requires s.Valid() && c.IsPacket() && PacketSsrc(c).Ok?
  {
    match c
    case CallRtp(packet, mki) =>
      var h := ParseRtp(packet).value;
      if s.side.Sending? then SendRtp(cs, s, h, packet, mki) else ReceiveRtp(cs, s, h, packet)
    case CallRtcp(packet, mki) =>
      var h := ParseRtcp(packet).value;
      if s.side.Sending? then SendRtcp(cs, s, h, packet, mki) else ReceiveRtcp(cs, s, h, packet)
  }

  /** A call that reaches a stream is answered as that stream serves it. */
  lemma PacketServed(cs: Suite, y: Session, c: Call)
    requires y.Valid() && c.IsPacket() && Reaches(cs, y, c)
    ensures var (ssrc, entry, e) := Target(cs, y, c);
            && y.Hosts(entry.stream) && PacketSsrc(c) == Ok(ssrc)
            && var (s', r) := Serve(cs, entry.stream, c);
               && Do(cs, y, c).1 == r
               && (r.Ok? ==> Do(cs, y, c).0 == y.(streams := y.streams[ssrc := entry.(stream := s')]))
  {
    hide Do, SendRtp, SendRtcp, ReceiveRtp, ReceiveRtcp, ParseRtp, ParseRtcp, NewStream, Session.Valid, Stream.Valid;
    PacketRouted(cs, y, c);
    Reached(cs, y, c);
    RequestFits(cs, y, c);
  }

  // ---- adding and updating the template ----

  /** Every stream of the template can be updated with this configuration. */
  predicate AllAllow(cs: Suite, y: Session, c: StreamConfig)
    requires SaltsFit(c) && c.keys != []
  {
    forall a | a in y.streams && y.streams[a].fromTemplate :: UpdateAllowed(cs, y.streams[a].stream, c)
  }

  /** What updating with the template's new configuration may have done to a stream, so far. */
  ghost predicate Along(cs: Suite, c: StreamConfig, s: Stream, s': Stream)
    requires SaltsFit(c) && Transforms(cs, c).Ok?
  {
    (s' == s || Reconfigured(c, s, s')) && Grown(cs, c, s.base.transforms, s'.base.transforms)
  }

  lemma AlongTransitive(cs: Suite, c: StreamConfig, s: Stream, s1: Stream, s2: Stream)
    requires c.Valid() && SaltsFit(c) && Transforms(cs, c).Ok?
    requires Reconfigured(c, s, s1) && Grown(cs, c, s.base.transforms, s1.base.transforms) && Along(cs, c, s1, s2)
    ensures Reconfigured(c, s, s2) && Grown(cs, c, s.base.transforms, s2.base.transforms)
    ensures HasKeys(cs, c, s1) ==> HasKeys(cs, c, s2)
  {
    hide StreamConfig.Valid, Transforms, BuiltFrom;
    if HasKeys(cs, c, s1) {
      forall k | 0 <= k < |c.keys|
        ensures HasKey(cs, c, k, s2.base.transforms)
      {
        assert HasKey(cs, c, k, s1.base.transforms);
      }
    }
  }

  lemma AllowedAlong(cs: Suite, c: StreamConfig, s: Stream, s1: Stream)
    requires c.Valid() && SaltsFit(c) && c.keys != [] && Transforms(cs, c).Ok?
    requires s1.base.mkiLen == s.base.mkiLen && Grown(cs, c, s.base.transforms, s1.base.transforms)
    ensures UpdateAllowed(cs, s, c) <==> UpdateAllowed(cs, s1, c)
  {
    hide StreamConfig.Valid, Transforms;
    if UpdateAllowed(cs, s1, c) {
      forall m | m in Transforms(cs, c).value && m in s.base.transforms
        ensures Transforms(cs, c).value[m].transform == s.base.transforms[m].transform
      {
        assert m in s1.base.transforms;
      }
    }
  }

  /** The streams after updating those of the template, when none refused. */
  lemma {:induction false} TemplatedOutcome(
      cs: Suite, y: Session, c: StreamConfig, visits: seq<(u32, seq<Mki>)>, a: u32)
    requires y.Valid() && c.Valid() && SaltsFit(c) && Transforms(cs, c).Ok?
    requires UpdateTemplated(cs, y, c, visits).1.Ok? && a in y.streams && y.streams[a].fromTemplate
    ensures a in UpdateTemplated(cs, y, c, visits).0.streams
    ensures var (s, s') := (y.streams[a].stream, UpdateTemplated(cs, y, c, visits).0.streams[a].stream);
            && Along(cs, c, s, s')
            && (HasTurn(c, visits, a) ==> Reconfigured(c, s, s') && HasKeys(cs, c, s'))
    decreases |visits|
  {
    hide StreamConfig.Valid, Update, Stream.Valid, Transforms, Reconfigured, Grown, HasKeys, CoversKeys;
    if visits == [] {
      GrownToSame(cs, c, y.streams[a].stream.base.transforms);
    } else {
      var (b, order) := visits[0];
      TurnNowOrLater(c, visits, a);
      if b in y.streams && y.streams[b].fromTemplate {
        var s := y.streams[b].stream;
        var y1 := y.(streams := y.streams[b := Entry(Update(cs, s, c, order).0, true)]);
        UpdateHosts(cs, y, s, c, order);
        StreamOfValid(y, b);
        UpdatedStream(cs, s, c, order);
        TemplatedOutcome(cs, y1, c, visits[1..], a);
        if a == b {
          var s' := UpdateTemplated(cs, y, c, visits).0.streams[a].stream;
          AlongTransitive(cs, c, s, Update(cs, s, c, order).0, s');
        }
      } else {
        TemplatedOutcome(cs, y, c, visits[1..], a);
      }
    }
  }

  lemma GrownToSame(cs: Suite, c: StreamConfig, keys: KeyMap)
    requires SaltsFit(c) && Transforms(cs, c).Ok?
    ensures Grown(cs, c, keys, keys)
  {
  }

  lemma TurnNowOrLater(c: StreamConfig, visits: seq<(u32, seq<Mki>)>, a: u32)
    requires visits != []
    ensures HasTurn(c, visits, a) ==>
              (visits[0].0 == a && CoversKeys(c, visits[0].1)) || HasTurn(c, visits[1..], a)
  {
    hide CoversKeys;
    if HasTurn(c, visits, a) {
      var k :| 0 <= k < |visits| && visits[k].0 == a && CoversKeys(c, visits[k].1);
      if k > 0 {
        assert visits[1..][k - 1] == visits[k];
      }
    }
  }

  lemma StreamOfValid(y: Session, a: u32)
    requires y.Valid() && a in y.streams
    ensures y.streams[a].stream.Valid()
  {
  }

  /** No stream of the template refuses if and only if each can be updated. */
  lemma {:induction false} TemplatedOkIff(cs: Suite, y: Session, c: StreamConfig, visits: seq<(u32, seq<Mki>)>)
    requires y.Valid() && c.Valid() && SaltsFit(c) && c.keys != []
    ensures AllAllow(cs, y, c) ==> UpdateTemplated(cs, y, c, visits).1.Ok?
    ensures UpdateTemplated(cs, y, c, visits).1.Ok? ==>
              forall a | a in y.streams && y.streams[a].fromTemplate && HasTurn(c, visits, a) ::
                UpdateAllowed(cs, y.streams[a].stream, c)
    decreases |visits|
  {
    hide StreamConfig.Valid, Update, Stream.Valid, Transforms, CoversKeys, UpdateAllowed, Reconfigured, Grown, HasKeys;
    if visits != [] {
      var (b, order) := visits[0];
      forall a
        ensures HasTurn(c, visits, a) ==>
                  (visits[0].0 == a && CoversKeys(c, visits[0].1)) || HasTurn(c, visits[1..], a)
      {
        TurnNowOrLater(c, visits, a);
      }
      if b in y.streams && y.streams[b].fromTemplate {
        var s := y.streams[b].stream;
        var y1 := y.(streams := y.streams[b := Entry(Update(cs, s, c, order).0, true)]);
        UpdateHosts(cs, y, s, c, order);
        StreamOfValid(y, b);
        UpdateOutcome(cs, s, c, order);
        if Update(cs, s, c, order).1.Ok? {
          UpdatedStream(cs, s, c, order);
          SameMkiLen(c, s, Update(cs, s, c, order).0);
          AllowedAlong(cs, c, s, Update(cs, s, c, order).0);
          TemplatedOkIff(cs, y1, c, visits[1..]);
        }
      } else {
        TemplatedOkIff(cs, y, c, visits[1..]);
      }
    }
  }

  lemma SameMkiLen(c: StreamConfig, s: Stream, s': Stream)
    requires Reconfigured(c, s, s')
    ensures s'.base.mkiLen == s.base.mkiLen
  {
  }

  /** `add_stream` without an SSRC is answered Ok exactly for a valid configuration all streams can take. */
  lemma TemplateOkIff(cs: Suite, y: Session, c: StreamConfig, visits: seq<(u32, seq<Mki>)>)
    requires y.Valid()
    ensures var r := Do(cs, y, CallAddTemplate(c, visits)).1;
            && (r.Ok? ==> c.Valid())
            && (!c.Valid() ==> Do(cs, y, CallAddTemplate(c, visits)) == (y, Err(InvalidProfile)))
            && (c.Valid() ==>
                  && SaltsFit(c) && c.keys != []
                  && (AllAllow(cs, y, c) ==> r.Ok?)
                  && (r.Ok? && CoversTemplated(y, c, visits) ==> AllAllow(cs, y, c)))
  {
    hide StreamConfig.Valid, UpdateTemplated, UpdateAllowed;
    if c.Valid() {
      ValidSaltsFit(c);
      ValidNonEmpty(c);
      TemplatedOkIff(cs, y, c, visits);
    }
  }

  /**
   When it is answered Ok, the configuration is the session's template, every stream of the template
   has its keys, size and flag, and no other stream has changed; otherwise the template is as before.
   */
  lemma TemplateAdded(cs: Suite, y: Session, c: StreamConfig, visits: seq<(u32, seq<Mki>)>)
    requires y.Valid()
    ensures var (y', r) := Do(cs, y, CallAddTemplate(c, visits));
            && y'.streams.Keys == y.streams.Keys
            && (forall a | a in y.streams :: y'.streams[a].fromTemplate == y.streams[a].fromTemplate)
            && (forall a | a in y.streams && !y.streams[a].fromTemplate :: y'.streams[a] == y.streams[a])
            && y'.template == (if r.Ok? then Some(c) else y.template)
            && (r.Ok? && CoversTemplated(y, c, visits) ==>
                  && SaltsFit(c)
                  && forall a | a in y.streams && y.streams[a].fromTemplate ::
                       && Reconfigured(c, y.streams[a].stream, y'.streams[a].stream)
                       && HasKeys(cs, c, y'.streams[a].stream))
  {
    hide StreamConfig.Valid, UpdateTemplated, Reconfigured, HasKeys, HasTurn, Transforms, UpdateAllowed, Session.Valid;
    if c.Valid() {
      ValidSaltsFit(c);
      ValidNonEmpty(c);
      UpdateTemplatedValid(cs, y, c, visits);
      UpdateTemplatedFlags(cs, y, c, visits);
      TemplateKept(cs, y, c, visits);
      if UpdateTemplated(cs, y, c, visits).1.Ok? {
        TemplatedOkIff(cs, y, c, visits);
        forall a | a in y.streams && y.streams[a].fromTemplate && HasTurn(c, visits, a)
          ensures a in UpdateTemplated(cs, y, c, visits).0.streams
          ensures Reconfigured(c, y.streams[a].stream, UpdateTemplated(cs, y, c, visits).0.streams[a].stream)
          ensures HasKeys(cs, c, UpdateTemplated(cs, y, c, visits).0.streams[a].stream)
        {
          AllowedBuilds(cs, y.streams[a].stream, c);
          TemplatedOutcome(cs, y, c, visits, a);
        }
      }
    }
  }

  lemma AllowedBuilds(cs: Suite, s: Stream, c: StreamConfig)
    requires SaltsFit(c) && c.keys != [] && UpdateAllowed(cs, s, c)
    ensures Transforms(cs, c).Ok?
  {
  }

  lemma TemplateKept(cs: Suite, y: Session, c: StreamConfig, visits: seq<(u32, seq<Mki>)>)
    requires y.Valid() && c.Valid() && SaltsFit(c)
    ensures UpdateTemplated(cs, y, c, visits).0.template == y.template
  {
    hide StreamConfig.Valid, UpdateTemplated;
    UpdateTemplatedValid(cs, y, c, visits);
  }

  // ---- adding and updating one stream ----

  /** `add_stream` with an SSRC: when it is answered Ok, and which error otherwise. */
  lemma SsrcOkIff(cs: Suite, y: Session, ssrc: u32, c: StreamConfig, order: seq<Mki>)
    requires y.Valid()
    ensures var (y', r) := Do(cs, y, CallAddSsrc(ssrc, c, order));
            if !c.Valid() then (y', r) == (y, Err(InvalidProfile))
            else
              && SaltsFit(c) && c.keys != []
              && if ssrc !in y.streams then
                   if c.rtpProfile.IsGcm() != c.rtcpProfile.IsGcm() then (y', r) == (y, Err(TransformDispatch))
                   else r.Ok?
                 else
                   && (UpdateAllowed(cs, y.streams[ssrc].stream, c) ==> r.Ok?)
                   && (r.Ok? && CoversKeys(c, order) ==> UpdateAllowed(cs, y.streams[ssrc].stream, c))
                   && (r.Err? ==>
                         && r.error == (if c.MkiLen() == y.streams[ssrc].stream.base.mkiLen
                                           && c.rtpProfile.IsGcm() != c.rtcpProfile.IsGcm()
                                        then TransformDispatch else InvalidProfile)
                         && ssrc in y'.streams && y'.streams[ssrc].fromTemplate == y.streams[ssrc].fromTemplate
                         && y' == y.(streams := y.streams[ssrc := y'.streams[ssrc]]))
  {
    hide StreamConfig.Valid, Update, NewStream, UpdateAllowed, Stream.Valid, Filed;
    if c.Valid() {
      ValidSaltsFit(c);
      ValidNonEmpty(c);
      if ssrc in y.streams {
        UpdateOutcome(cs, y.streams[ssrc].stream, c, order);
      } else {
        NewStreamOutcome(cs, y.role, ssrc, c);
      }
    }
  }

  /**
   When it is answered Ok, the stream is there, as one that was added by its SSRC, with the keys, the
   size and the flag of the configuration: a new one, or the one there was.  Nothing else has changed.
   */
  lemma SsrcAdded(cs: Suite, y: Session, ssrc: u32, c: StreamConfig, order: seq<Mki>)
    requires y.Valid() && Do(cs, y, CallAddSsrc(ssrc, c, order)).1.Ok?
    ensures var y' := Do(cs, y, CallAddSsrc(ssrc, c, order)).0;
            && c.Valid() && SaltsFit(c)
            && ssrc in y'.streams && !y'.streams[ssrc].fromTemplate
            && y' == y.(streams := y.streams[ssrc := y'.streams[ssrc]])
            && (ssrc !in y.streams ==> NewStream(cs, y.role, ssrc, c) == Ok(y'.streams[ssrc].stream))
            && (ssrc in y.streams ==>
                  && Reconfigured(c, y.streams[ssrc].stream, y'.streams[ssrc].stream)
                  && (CoversKeys(c, order) ==> HasKeys(cs, c, y'.streams[ssrc].stream)))
  {
    hide StreamConfig.Valid, Update, NewStream, Reconfigured, HasKeys, CoversKeys, Grown, Stream.Valid;
    assert c.Valid();
    ValidSaltsFit(c);
    if ssrc in y.streams {
      UpdatedStream(cs, y.streams[ssrc].stream, c, order);
    }
  }

  // ---- the other calls ----

  lemma RemoveOutcome(cs: Suite, y: Session, ssrc: u32)
    requires y.Valid()
    ensures var (y', r) := Do(cs, y, CallRemove(ssrc));
            if ssrc in y.streams then
              && r.Ok? && ssrc !in y'.streams && y' == y.(streams := y'.streams)
              && (forall a | a != ssrc :: a in y'.streams <==> a in y.streams)
              && (forall a | a in y'.streams :: y'.streams[a] == y.streams[a])
            else (y', r) == (y, Err(StreamNotFound))
  {
    hide Session.Valid;
  }

  /** The ROC told is the part of the newest index above the sequence number. */
  lemma GetRocOutcome(y: Session, ssrc: u32)
    requires y.Valid()
    ensures ssrc !in y.streams ==> GetRoc(y, ssrc) == Err(StreamNotFound)
    ensures ssrc in y.streams ==>
              && GetRoc(y, ssrc).Ok?
              && var top := y.streams[ssrc].stream.base.rtp.window.top;
                 GetRoc(y, ssrc).value * 0x1_0000 + top % 0x1_0000 == top % 0x1_0000_0000_0000
  {
    hide Session.Valid;
    if ssrc in y.streams {
      StreamOfValid(y, ssrc);
    }
  }

  lemma SetRocOnSession(cs: Suite, y: Session, ssrc: u32, roc: u32)
    requires y.Valid()
    ensures var (y', r) := Do(cs, y, CallSetRoc(ssrc, roc));
            if ssrc !in y.streams then (y', r) == (y, Err(StreamNotFound))
            else if roc < y.streams[ssrc].stream.base.rtp.Roc() then (y', r) == (y, Err(InvalidPacketIndex))
            else
              && r.Ok? && ssrc in y'.streams
              && y' == y.(streams := y.streams[ssrc := y'.streams[ssrc]])
              && y'.streams[ssrc].fromTemplate == y.streams[ssrc].fromTemplate
              && var (s, s') := (y.streams[ssrc].stream, y'.streams[ssrc].stream);
                 s' == s.(base := s.base.(rtp := RtpIndex(s.base.rtp.window, Some(roc))))
  {
    hide StreamConfig.Valid, SetRoc, RtpIndex.Roc;
    if ssrc in y.streams {
      SetRocOutcome(y.streams[ssrc].stream, roc);
      assert y.streams[ssrc := y.streams[ssrc]] == y.streams;
    }
  }
}
