/** The SRTCP indexes that the streams of a session send under, each stream with a single master key. */
module SessionRtcp {
  import opened Types
  import opened Crypto
  import opened ReplayIndex
  import opened Transform
  import opened StreamConfig
  import opened StreamSpec
  import opened StreamRuns
  import opened SessionSpec
  import opened SessionRuns

  // ---- one stream ----

  ghost predicate OneKey(s: Stream) {
    exists m :: s.base.transforms.Keys == {m}
  }

  /** The lives left under any key do not reach beyond the end of the counter. */
  ghost predicate Metered(s: Stream) {
    && s.side.Sending?
    && (forall m | m in s.base.transforms ::
          s.base.Left(false, m) == 0 || s.side.rtcpIndex + s.base.Left(false, m) <= RTCP_ROLLBACK)
  }

  /** This index will not be used again: the counter has passed it, or no key is alive. */
  ghost predicate Spent(s: Stream, i: u31)
    requires s.side.Sending?
  {
    i < s.side.rtcpIndex || forall m | m in s.base.transforms :: s.base.Left(false, m) == 0
  }

  predicate SameKeysAndCounter(s: Stream, s': Stream) {
    s'.base.transforms == s.base.transforms && s'.side == s.side
  }

  lemma SpendLeft(b: Base, isRtp: bool, mki: Mki)
    requires b.Left(isRtp, mki) > 0
    ensures mki in b.transforms
    ensures b.Spend(isRtp, mki).Left(false, mki)
         == if !isRtp then b.Left(false, mki) - 1 else if b.Left(true, mki) == 1 then 0 else b.Left(false, mki)
  {
  }

  /** One life less under the only key, and, for SRTCP, one step of the counter. */
  lemma SpendMetered(s: Stream, s': Stream, isRtp: bool, mki: Mki)
    requires OneKey(s) && Metered(s) && s.base.Left(isRtp, mki) > 0
    requires s'.base == s.base.Spend(isRtp, mki).(rtp := s'.base.rtp)
    requires s'.side == if isRtp then s.side else Sending((s.side.rtcpIndex + 1) % RTCP_ROLLBACK)
    ensures OneKey(s') && Metered(s')
    ensures forall i | Spent(s, i) || (!isRtp && i == s.side.rtcpIndex) :: Spent(s', i)
    ensures !isRtp ==> !Spent(s, s.side.rtcpIndex)
  {
    SpendLeft(s.base, isRtp, mki);
    assert s'.base.Left(false, mki) == s.base.Spend(isRtp, mki).Left(false, mki);
    hide Base.Spend, Base.Left;
    var m :| s.base.transforms.Keys == {m};
    assert mki in s.base.transforms.Keys;
    assert s'.base.transforms.Keys == {m};
  }

  lemma PacketMetered(cs: Suite, s: Stream, e: Event)
    requires s.Valid() && OneKey(s) && Metered(s) && e.IsPacket()
    ensures var s' := Step(cs, s, e).0;
            && OneKey(s') && Metered(s')
            && (forall i | Spent(s, i) || (SendsRtcp(cs, s, e) && i == s.side.rtcpIndex) :: Spent(s', i))
    ensures SendsRtcp(cs, s, e) ==> !Spent(s, s.side.rtcpIndex)
  {
    hide Step, RtpIndex.Add, RtpIndex.Seen, Transform.Valid, UsedMki, RtpIndexOf, RtcpIndexOf, RtcpIndex.Add,
         RtcpIndex.Seen, StreamConfig.Valid, Base.Kill, Base.Spend, Base.Left, OneKey, Spent;
    if Succeeds(cs, s, e) {
      Success(cs, s, e);
      SpendMetered(s, Step(cs, s, e).0, e.IsRtp(), UsedMki(s, e));
    } else {
      Otherwise(cs, s, e);
    }
  }

  lemma KillMetered(s: Stream, mki: Mki)
    requires OneKey(s) && Metered(s)
    ensures var s' := s.(base := s.base.Kill(mki));
            OneKey(s') && Metered(s') && forall i | Spent(s, i) :: Spent(s', i)
  {
    hide Base.Kill;
    var m :| s.base.transforms.Keys == {m};
    assert s.base.Kill(mki).transforms.Keys == {m};
  }

  /** A stream that is re-keyed, and still has a single key, has the one it had, with the lives it had. */
  lemma RekeyMetered(cs: Suite, s: Stream, c: StreamConfig, order: seq<Mki>)
    requires s.Valid() && s.side.Sending? && c.Valid() && SaltsFit(c)
    requires OneKey(s) && OneKey(Update(cs, s, c, order).0)
    ensures SameKeysAndCounter(s, Update(cs, s, c, order).0)
  {
    hide StreamConfig.Valid, Transforms, Merge;
    UpdateKeepsKeys(cs, s, c, order);
    var s' := Update(cs, s, c, order).0;
    var m :| s.base.transforms.Keys == {m};
    var m' :| s'.base.transforms.Keys == {m'};
    assert m in s.base.transforms && m' in s'.base.transforms.Keys;
  }

  lemma FreshMetered(cs: Suite, ssrc: u32, c: StreamConfig)
    requires c.Valid() && SaltsFit(c) && NewStream(cs, Sender, ssrc, c).Ok?
    ensures Metered(NewStream(cs, Sender, ssrc, c).value)
  {
    hide StreamConfig.Valid, Transforms;
  }

  // ---- a session ----

  ghost predicate SingleKeys(y: Session) {
    forall a | a in y.streams :: OneKey(y.streams[a].stream)
  }

  ghost predicate AllMetered(y: Session) {
    forall a | a in y.streams :: Metered(y.streams[a].stream)
  }

  ghost predicate SpentIn(y: Session, a: u32, i: u31) {
    a in y.streams && y.streams[a].stream.side.Sending? && Spent(y.streams[a].stream, i)
  }

  /** The (SSRC, SRTCP index) pair of an RTCP packet that a call protects. */
  function UsedRtcp(cs: Suite, y: Session, c: Call): seq<(u32, u31)>
    requires y.Valid() && y.role.Sender?
  {
    if c.CallRtcp? && Reaches(cs, y, c) && Do(cs, y, c).1.Ok? then
      [(Target(cs, y, c).0, Target(cs, y, c).1.stream.side.rtcpIndex)]
    else []
  }

  /** No stream is removed, and each has a single master key, before the call and after it. */
  ghost predicate SingleKeyCall(cs: Suite, y: Session, c: Call)
    requires y.Valid()
  {
    !c.CallRemove? && SingleKeys(y) && SingleKeys(Do(cs, y, c).0)
  }

  ghost predicate SingleKeyCalls(cs: Suite, y: Session, calls: seq<Call>)
    requires y.Valid()
    decreases |calls|
  {
    calls != [] ==>
      && SingleKeyCall(cs, y, calls[0])
      && (DoValid(cs, y, calls[0]); SingleKeyCalls(cs, Do(cs, y, calls[0]).0, calls[1..]))
  }

  /** A packet leaves the session alone, moves one stream, or reports the death of a key. */
  lemma PacketOutcome(cs: Suite, y: Session, c: Call)
    requires y.Valid() && c.IsPacket()
    ensures var y' := Do(cs, y, c).0;
            || y' == y
            || (Reaches(cs, y, c) && Do(cs, y, c).1.Ok?
                && var (ssrc, entry, e) := Target(cs, y, c);
                   y' == y.(streams := y.streams[ssrc := entry.(stream := Step(cs, entry.stream, e).0)]))
            || (Do(cs, y, c).1.Err? && Do(cs, y, c).1.error.KeyLimit?
                && y' == y.KillEverywhere(Do(cs, y, c).1.error.mki))
  {
    hide Do, Step, Session.Find, Request, Session.KillEverywhere, StreamConfig.Valid, NewStream;
    if !Reaches(cs, y, c) {
      Unreached(cs, y, c);
    } else {
      var (ssrc, entry, e) := Target(cs, y, c);
      Reached(cs, y, c);
      RequestFits(cs, y, c);
      if Do(cs, y, c).1.Err? {
        Otherwise(cs, entry.stream, e);
        if ssrc in y.streams {
          assert y.streams[ssrc := entry] == y.streams;
        }
      }
    }
  }

  lemma {:induction false} UpdateTemplatedMetered(cs: Suite, y: Session, c: StreamConfig, visits: seq<(u32, seq<Mki>)>)
    requires y.Valid() && y.role.Sender? && c.Valid() && SaltsFit(c)
    requires SingleKeys(y) && SingleKeys(UpdateTemplated(cs, y, c, visits).0)
    ensures var y' := UpdateTemplated(cs, y, c, visits).0;
            && y'.streams.Keys == y.streams.Keys
            && (forall a | a in y.streams :: SameKeysAndCounter(y.streams[a].stream, y'.streams[a].stream))
    decreases |visits|
  {
    hide StreamConfig.Valid, Update, OneKey, Stream.Valid;
    if visits != [] {
      var (a, order) := visits[0];
      if a in y.streams && y.streams[a].fromTemplate {
        var s := y.streams[a].stream;
        var s1 := Update(cs, s, c, order).0;
        var y1 := y.(streams := y.streams[a := Entry(s1, true)]);
        UpdateHosts(cs, y, s, c, order);
        if Update(cs, s, c, order).1.Ok? {
          UpdateTemplatedGrows(cs, y1, c, visits[1..]);
          SameKeyBetween(cs, s, c, order, UpdateTemplated(cs, y1, c, visits[1..]).0.streams[a].stream);
          UpdateTemplatedMetered(cs, y1, c, visits[1..]);
        } else {
          assert UpdateTemplated(cs, y, c, visits).0.streams[a].stream == s1;
        }
        RekeyMetered(cs, s, c, order);
      } else {
        UpdateTemplatedMetered(cs, y, c, visits[1..]);
      }
    }
  }

  /** Updating the template's streams never takes a key away. */
  lemma {:induction false} UpdateTemplatedGrows(cs: Suite, y: Session, c: StreamConfig, visits: seq<(u32, seq<Mki>)>)
    requires y.Valid() && c.Valid() && SaltsFit(c)
    ensures var y' := UpdateTemplated(cs, y, c, visits).0;
            && y'.streams.Keys == y.streams.Keys
            && (forall a | a in y.streams ::
                  y.streams[a].stream.base.transforms.Keys <= y'.streams[a].stream.base.transforms.Keys)
    decreases |visits|
  {
    hide StreamConfig.Valid, Update, Stream.Valid;
    if visits != [] {
      var (a, order) := visits[0];
      if a in y.streams && y.streams[a].fromTemplate {
        var s := Update(cs, y.streams[a].stream, c, order).0;
        UpdateHosts(cs, y, y.streams[a].stream, c, order);
        UpdateKeepsKeys(cs, y.streams[a].stream, c, order);
        UpdateTemplatedGrows(cs, y.(streams := y.streams[a := Entry(s, true)]), c, visits[1..]);
      } else {
        UpdateTemplatedGrows(cs, y, c, visits[1..]);
      }
    }
  }

  lemma SameKeyBetween(cs: Suite, s: Stream, c: StreamConfig, order: seq<Mki>, last: Stream)
    requires s.Valid() && c.Valid() && SaltsFit(c) && OneKey(s) && OneKey(last)
    requires Update(cs, s, c, order).0.base.transforms.Keys <= last.base.transforms.Keys
    ensures OneKey(Update(cs, s, c, order).0)
  {
    hide StreamConfig.Valid, Update;
    UpdateKeepsKeys(cs, s, c, order);
    var m :| s.base.transforms.Keys == {m};
    var m' :| last.base.transforms.Keys == {m'};
    var keys := Update(cs, s, c, order).0.base.transforms.Keys;
    assert m in s.base.transforms && m in keys;
    assert keys == {m'};
  }

  /** Every call keeps the streams metered, and an index once spent, or just used, stays spent. */
  lemma CallSpends(cs: Suite, y: Session, c: Call, a: u32, i: u31)
    requires y.Valid() && y.role.Sender? && AllMetered(y) && SingleKeyCall(cs, y, c)
    ensures Do(cs, y, c).0.Valid() && Do(cs, y, c).0.role.Sender? && AllMetered(Do(cs, y, c).0)
    ensures SpentIn(y, a, i) || UsedRtcp(cs, y, c) == [(a, i)] ==> SpentIn(Do(cs, y, c).0, a, i)
    ensures (a, i) in UsedRtcp(cs, y, c) ==> !SpentIn(y, a, i)
  {
    DoValid(cs, y, c);
    if c.IsPacket() {
      PacketSpends(cs, y, c, a, i);
    } else {
      OtherCallSpends(cs, y, c, a, i);
    }
  }

  lemma PacketSpends(cs: Suite, y: Session, c: Call, a: u32, i: u31)
    requires y.Valid() && y.role.Sender? && AllMetered(y) && SingleKeyCall(cs, y, c) && c.IsPacket()
    ensures AllMetered(Do(cs, y, c).0)
    ensures SpentIn(y, a, i) || UsedRtcp(cs, y, c) == [(a, i)] ==> SpentIn(Do(cs, y, c).0, a, i)
    ensures (a, i) in UsedRtcp(cs, y, c) ==> !SpentIn(y, a, i)
  {
    hide Do, Step, Session.Find, Request, Session.KillEverywhere, StreamConfig.Valid, NewStream, OneKey, Metered, Spent;
    PacketOutcome(cs, y, c);
    if Reaches(cs, y, c) && Do(cs, y, c).1.Ok? {
      ReachedSpends(cs, y, c, a, i);
    } else if Do(cs, y, c).0 != y {
      KillSpends(y, Do(cs, y, c).1.error.mki, a, i);
    }
  }

  lemma ReachedSpends(cs: Suite, y: Session, c: Call, a: u32, i: u31)
    requires y.Valid() && y.role.Sender? && AllMetered(y) && SingleKeyCall(cs, y, c) && c.IsPacket()
    requires Reaches(cs, y, c) && Do(cs, y, c).1.Ok?
    ensures AllMetered(Do(cs, y, c).0)
    ensures SpentIn(y, a, i) || UsedRtcp(cs, y, c) == [(a, i)] ==> SpentIn(Do(cs, y, c).0, a, i)
    ensures (a, i) in UsedRtcp(cs, y, c) ==> !SpentIn(y, a, i)
  {
    hide Do, Step, Session.Find, Request, Session.KillEverywhere, StreamConfig.Valid, NewStream, OneKey, Metered, Spent;
    var (ssrc, entry, e) := Target(cs, y, c);
    Reached(cs, y, c);
    RequestFits(cs, y, c);
    TargetMetered(cs, y, c);
    PacketMetered(cs, entry.stream, e);
    var s := Step(cs, entry.stream, e).0;
    MeteredSends(s);
    MeteredSends(entry.stream);
    assert Do(cs, y, c).0 == y.(streams := y.streams[ssrc := entry.(stream := s)]);
    if UsedRtcp(cs, y, c) != [] {
      assert SendsRtcp(cs, entry.stream, e);
    }
  }

  /** The stream that a successful packet is for, spawned or not, is metered and has one key. */
  lemma TargetMetered(cs: Suite, y: Session, c: Call)
    requires y.Valid() && y.role.Sender? && AllMetered(y) && SingleKeyCall(cs, y, c)
    requires c.IsPacket() && Reaches(cs, y, c) && Do(cs, y, c).1.Ok?
    ensures OneKey(Target(cs, y, c).1.stream) && Metered(Target(cs, y, c).1.stream)
  {
    hide Do, Step, Session.Find, Request, StreamConfig.Valid, NewStream, Metered, Base.Spend, RtpIndex.Estimate,
         RtpIndex.Add, RtpIndex.Seen;
    var (ssrc, entry, e) := Target(cs, y, c);
    if ssrc !in y.streams {
      FreshMetered(cs, ssrc, y.template.value);
      Reached(cs, y, c);
      RequestFits(cs, y, c);
      Success(cs, entry.stream, e);
      assert entry.stream.base.transforms.Keys == Do(cs, y, c).0.streams[ssrc].stream.base.transforms.Keys;
    }
  }

  lemma KillSpends(y: Session, mki: Mki, a: u32, i: u31)
    requires AllMetered(y) && SingleKeys(y)
    ensures AllMetered(y.KillEverywhere(mki))
    ensures SpentIn(y, a, i) ==> SpentIn(y.KillEverywhere(mki), a, i)
  {
    hide KillKey, OneKey, Metered, Spent, Base.Kill;
    forall b | b in y.streams
      ensures Metered(KilledEntry(y.streams[b], mki).stream)
      ensures y.streams[b].stream.side.Sending? && KilledEntry(y.streams[b], mki).stream.side.Sending?
      ensures Spent(y.streams[b].stream, i) ==> Spent(KilledEntry(y.streams[b], mki).stream, i)
    {
      MeteredSends(y.streams[b].stream);
      KillMetered(y.streams[b].stream, mki);
    }
  }

  lemma MeteredSends(s: Stream)
    requires Metered(s)
    ensures s.side.Sending?
  {
  }

  lemma SameSpent(s: Stream, s': Stream, i: u31)
    requires SameKeysAndCounter(s, s') && Metered(s)
    ensures Metered(s') && s.side.Sending? && s'.side.Sending? && (Spent(s, i) ==> Spent(s', i))
  {
  }

  /** All the streams there were keep their keys and counters; new ones are fresh. */
  ghost predicate OnlyFresh(cs: Suite, y: Session, y': Session) {
    && (forall a | a in y.streams :: a in y'.streams && SameKeysAndCounter(y.streams[a].stream, y'.streams[a].stream))
    && (forall a | a in y'.streams && a !in y.streams :: Metered(y'.streams[a].stream))
  }

  lemma OnlyFreshSpends(cs: Suite, y: Session, y': Session, a: u32, i: u31)
    requires AllMetered(y) && OnlyFresh(cs, y, y')
    ensures AllMetered(y')
    ensures SpentIn(y, a, i) ==> SpentIn(y', a, i)
  {
    hide Metered, Spent, SameKeysAndCounter;
    forall b | b in y.streams
      ensures Metered(y'.streams[b].stream)
      ensures y.streams[b].stream.side.Sending? && y'.streams[b].stream.side.Sending?
      ensures Spent(y.streams[b].stream, i) ==> Spent(y'.streams[b].stream, i)
    {
      SameSpent(y.streams[b].stream, y'.streams[b].stream, i);
    }
  }

  lemma AddTemplateFresh(cs: Suite, y: Session, c: StreamConfig, visits: seq<(u32, seq<Mki>)>)
    requires y.Valid() && y.role.Sender? && SingleKeys(y) && SingleKeys(AddTemplate(cs, y, c, visits).0)
    ensures OnlyFresh(cs, y, AddTemplate(cs, y, c, visits).0)
  {
    hide StreamConfig.Valid, UpdateTemplated, OneKey, Metered;
    if c.Valid() {
      ValidSaltsFit(c);
      UpdateTemplatedMetered(cs, y, c, visits);
    }
  }

  lemma AddSsrcFresh(cs: Suite, y: Session, ssrc: u32, c: StreamConfig, order: seq<Mki>)
    requires y.Valid() && y.role.Sender? && SingleKeys(y) && SingleKeys(AddSsrc(cs, y, ssrc, c, order).0)
    ensures OnlyFresh(cs, y, AddSsrc(cs, y, ssrc, c, order).0)
  {
    hide StreamConfig.Valid, Update, OneKey, Metered, NewStream;
    if c.Valid() {
      ValidSaltsFit(c);
      if ssrc in y.streams {
        assert AddSsrc(cs, y, ssrc, c, order).0.streams[ssrc].stream == Update(cs, y.streams[ssrc].stream, c, order).0;
        RekeyMetered(cs, y.streams[ssrc].stream, c, order);
      } else if NewStream(cs, y.role, ssrc, c).Ok? {
        FreshMetered(cs, ssrc, c);
      }
    }
  }

  lemma OtherCallSpends(cs: Suite, y: Session, c: Call, a: u32, i: u31)
    requires y.Valid() && y.role.Sender? && AllMetered(y) && SingleKeyCall(cs, y, c) && !c.IsPacket()
    ensures AllMetered(Do(cs, y, c).0)
    ensures SpentIn(y, a, i) ==> SpentIn(Do(cs, y, c).0, a, i)
  {
    hide AddTemplate, AddSsrc, OneKey, Metered, SpentIn, AllMetered, RtpIndex.Roc, StreamConfig.Valid;
    match c {
      case CallAddTemplate(config, visits) => AddTemplateFresh(cs, y, config, visits);
      case CallAddSsrc(ssrc, config, order) => AddSsrcFresh(cs, y, ssrc, config, order);
      case CallSetRoc(_, _) =>
    }
    OnlyFreshSpends(cs, y, Do(cs, y, c).0, a, i);
  }

  /** What is spent is never used again. */
  lemma {:induction false} SpentNeverUsed(cs: Suite, y: Session, calls: seq<Call>, k: nat, a: u32, i: u31)
    requires y.Valid() && y.role.Sender? && AllMetered(y) && SingleKeyCalls(cs, y, calls)
    requires SpentIn(y, a, i) && k < |calls|
    ensures RunCalls(cs, y, calls[..k]).role.Sender?
    ensures (a, i) !in UsedRtcp(cs, RunCalls(cs, y, calls[..k]), calls[k])
    decreases |calls|
  {
    hide Do, UsedRtcp, SpentIn, AllMetered, RunCalls, SingleKeyCall;
    RunsValid(cs, y, calls, k);
    CallSpends(cs, y, calls[0], a, i);
    if k > 0 {
      SpentNeverUsed(cs, Do(cs, y, calls[0]).0, calls[1..], k - 1, a, i);
    }
  }

  /**
   Over a whole session of senders in which every stream keeps to a single master key, across
   spawned streams, rolled-back spawns, re-keying and key deaths: no two RTCP packets are protected
   under the same SSRC and SRTCP index.
   */
  lemma {:induction false} RtcpPairsUsedOnce(cs: Suite, y: Session, calls: seq<Call>, j: nat, k: nat)
    requires y.Valid() && y.role.Sender? && AllMetered(y) && SingleKeyCalls(cs, y, calls)
    requires j < k < |calls|
    ensures var (yj, yk) := (RunCalls(cs, y, calls[..j]), RunCalls(cs, y, calls[..k]));
            && yj.role.Sender? && yk.role.Sender?
            && forall p | p in UsedRtcp(cs, yj, calls[j]) :: p !in UsedRtcp(cs, yk, calls[k])
    decreases |calls|
  {
    hide Do, UsedRtcp, SpentIn, AllMetered, RunCalls, SingleKeyCall;
    RunsValid(cs, y, calls, j);
    RunsValid(cs, y, calls, k);
    CallSpends(cs, y, calls[0], 0, 0);
    var y', rest := Do(cs, y, calls[0]).0, calls[1..];
    if j > 0 {
      RtcpPairsUsedOnce(cs, y', rest, j - 1, k - 1);
    } else {
      OneRtcpPair(cs, y, calls[0]);
      forall p | p in UsedRtcp(cs, y, calls[0])
        ensures p !in UsedRtcp(cs, RunCalls(cs, y, calls[..k]), calls[k])
      {
        CallSpends(cs, y, calls[0], p.0, p.1);
        SpentNeverUsed(cs, y', rest, k - 1, p.0, p.1);
      }
    }
  }

  lemma OneRtcpPair(cs: Suite, y: Session, c: Call)
    requires y.Valid() && y.role.Sender?
    ensures |UsedRtcp(cs, y, c)| <= 1
  {
    hide Do, Reaches, Target;
  }

  /** Every new session meets what the results about whole runs ask of their first state. */
  lemma NewSessionIsReady(role: Role)
    ensures NewSession(role).Valid() && Guarded(NewSession(role)) && AllMetered(NewSession(role))
  {
  }
}
