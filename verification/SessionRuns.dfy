/** Properties of every run of a session. */
module SessionRuns {
  import opened Types
  import opened Crypto
  import opened Header
  import opened ReplayIndex
  import opened StreamConfig
  import opened StreamSpec
  import opened StreamRuns
  import opened SessionSpec

  // ---- what one packet does to a session ----

  /** Only the lives of keys may differ. */
  predicate SameButLives(s: Stream, s': Stream) {
    s' == s.(base := s.base.(transforms := s'.base.transforms))
  }

  /** The stream a packet is for, and the operation on it, when there is one. */
  predicate Reaches(cs: Suite, y: Session, c: Call)
    requires y.Valid()
  {
    c.IsPacket() && Request(y.role, c).Ok? && y.Find(cs, Request(y.role, c).value.0).Ok?
  }

  function Target(cs: Suite, y: Session, c: Call): (t: (u32, Entry, Event))
    requires y.Valid() && Reaches(cs, y, c)
    ensures y.Hosts(t.1.stream)
    ensures t.0 in y.streams ==> t.1 == y.streams[t.0]
    ensures t.0 !in y.streams ==>
              && t.1.fromTemplate && y.template.Some?
              && NewStream(cs, y.role, t.0, y.template.value) == Ok(t.1.stream)
  {
    var (ssrc, e) := Request(y.role, c).value;
    FindHosts(cs, y, ssrc);
    (ssrc, y.Find(cs, ssrc).value.0, e)
  }

  /** A packet that reaches no stream changes nothing. */
  lemma Unreached(cs: Suite, y: Session, c: Call)
    requires y.Valid() && c.IsPacket() && !Reaches(cs, y, c)
    ensures Do(cs, y, c).0 == y && Do(cs, y, c).1.Err?
  {
    hide Session.Find, Request;
  }

  lemma RequestFits(cs: Suite, y: Session, c: Call)
    requires y.Valid() && Reaches(cs, y, c)
    ensures var (ssrc, s, e) := Target(cs, y, c);
            && e.IsPacket() && e.Fits(s.stream)
            && (e.IsRtp() <==> c.CallRtp?)
            && (y.role.Sender? ==> e.mki == c.mki)
  {
    hide Session.Find, ParseRtp, ParseRtcp;
  }

  /** The streams after a packet: the one it was for has stepped, and lives may have been taken. */
  lemma Reached(cs: Suite, y: Session, c: Call)
    requires y.Valid() && Reaches(cs, y, c)
    ensures var (ssrc, entry, e) := Target(cs, y, c);
            var (s, r) := Step(cs, entry.stream, e);
            var y' := Do(cs, y, c).0;
            && Do(cs, y, c).1 == r
            && y'.streams.Keys == (if r.Ok? then y.streams.Keys + {ssrc} else y.streams.Keys)
            && (ssrc in y'.streams ==>
                  && y'.streams[ssrc].fromTemplate == entry.fromTemplate
                  && SameButLives(s, y'.streams[ssrc].stream))
            && (forall a | a in y.streams && a != ssrc ::
                  && y'.streams[a].fromTemplate == y.streams[a].fromTemplate
                  && SameButLives(y.streams[a].stream, y'.streams[a].stream))
            && (r.Ok? ==> y' == y.(streams := y.streams[ssrc := entry.(stream := s)]))
            && (r.Err? && !(entry.fromTemplate && r.error.KeyLimit? && r.error.isDead) && ssrc in y.streams ==>
                  y' == y.(streams := y.streams[ssrc := entry.(stream := s)]))
            && (r.Err? && !(entry.fromTemplate && r.error.KeyLimit? && r.error.isDead) && ssrc !in y.streams ==>
                  y' == y)
            && (r.Err? && entry.fromTemplate && r.error.KeyLimit? && r.error.isDead ==>
                  y' == (if ssrc in y.streams then y.(streams := y.streams[ssrc := entry.(stream := s)]) else y)
                        .KillEverywhere(r.error.mki))
  {
    hide Step, StreamConfig.Valid, NewStream, Base.Kill, KillKey, Request;
    var (ssrc, entry, e) := Target(cs, y, c);
    var (s, r) := Step(cs, entry.stream, e);
    assert Do(cs, y, c) == OnStream(cs, y, ssrc, e);
    if r.Err? && ssrc !in y.streams {
      assert y.streams[ssrc := entry.(stream := s)] - {ssrc} == y.streams;
    }
  }

  // ---- spawning from the template, and rolling back ----

  /** A stream of the template finds the key of this packet without lives. */
  predicate ReportsDeath(cs: Suite, y: Session, c: Call)
    requires y.Valid()
  {
    && Reaches(cs, y, c) && Target(cs, y, c).1.fromTemplate
    && Do(cs, y, c).1.Err? && Do(cs, y, c).1.error.KeyLimit? && Do(cs, y, c).1.error.isDead
  }

  /**
   A packet operation that fails leaves the session as it was, apart from what a dead key of the
   template takes with it; in particular a stream spawned for a first packet is rolled back.
   */
  lemma FailureLeavesNoTrace(cs: Suite, y: Session, c: Call)
    requires y.Valid() && c.IsPacket() && Do(cs, y, c).1.Err?
    ensures Do(cs, y, c).0.streams.Keys == y.streams.Keys
    ensures !ReportsDeath(cs, y, c) ==> Do(cs, y, c).0 == y
  {
    hide Do, Session.Find, Step, Request;
    if !Reaches(cs, y, c) {
      Unreached(cs, y, c);
    } else {
      var (ssrc, entry, e) := Target(cs, y, c);
      Reached(cs, y, c);
      RequestFits(cs, y, c);
      Otherwise(cs, entry.stream, e);
      if ssrc in y.streams {
        assert y.streams[ssrc := entry] == y.streams;
      }
    }
  }

  function RunCalls(cs: Suite, y: Session, calls: seq<Call>): (r: Session)
    requires y.Valid()
    ensures r.Valid() && r.role == y.role
    decreases |calls|
  {
    if calls == [] then y
    else
      DoValid(cs, y, calls[0]);
      RunCalls(cs, Do(cs, y, calls[0]).0, calls[1..])
  }

  /** The SSRC of a packet operation that succeeds. */
  function Served(cs: Suite, y: Session, c: Call): set<u32>
    requires y.Valid()
  {
    if Reaches(cs, y, c) && Do(cs, y, c).1.Ok? then {Target(cs, y, c).0} else {}
  }

  lemma {:induction false} UpdateTemplatedFlags(cs: Suite, y: Session, c: StreamConfig, visits: seq<(u32, seq<Mki>)>)
    requires c.Valid() && SaltsFit(c)
    ensures var y' := UpdateTemplated(cs, y, c, visits).0;
            && y'.streams.Keys == y.streams.Keys
            && (forall a | a in y.streams :: y'.streams[a].fromTemplate == y.streams[a].fromTemplate)
            && (forall a | a in y.streams && !y.streams[a].fromTemplate :: y'.streams[a] == y.streams[a])
    decreases |visits|
  {
    hide StreamConfig.Valid, Update;
    if visits != [] {
      var (a, order) := visits[0];
      if a in y.streams && y.streams[a].fromTemplate {
        var s := Update(cs, y.streams[a].stream, c, order).0;
        UpdateTemplatedFlags(cs, y.(streams := y.streams[a := Entry(s, true)]), c, visits[1..]);
      } else {
        UpdateTemplatedFlags(cs, y, c, visits[1..]);
      }
    }
  }

  predicate Spawned(y: Session, a: u32) {
    a in y.streams && y.streams[a].fromTemplate
  }

  /** A stream flagged as spawned was so before, and is not removed, or has just served a packet. */
  lemma FlagStep(cs: Suite, y: Session, c: Call, a: u32)
    requires y.Valid() && Spawned(Do(cs, y, c).0, a)
    ensures (Spawned(y, a) && c != CallRemove(a)) || a in Served(cs, y, c)
  {
    hide StreamConfig.Valid, OnStream, UpdateTemplated, Update, NewStream, Request, SetRoc, Session.Find;
    if c.IsPacket() {
      if Reaches(cs, y, c) {
        hide Do, Step;
        Reached(cs, y, c);
      } else {
        Unreached(cs, y, c);
      }
    } else if c.CallAddTemplate? && c.config.Valid() {
      ValidSaltsFit(c.config);
      UpdateTemplatedFlags(cs, y, c.config, c.visits);
    }
  }

  /** The k-th call serves a packet of this SSRC, and no later one removes its stream. */
  ghost predicate ServedSince(cs: Suite, y: Session, calls: seq<Call>, a: u32, k: nat)
    requires y.Valid() && k < |calls|
  {
    && a in Served(cs, RunCalls(cs, y, calls[..k]), calls[k])
    && CallRemove(a) !in calls[k..]
  }

  lemma ServedSinceShift(cs: Suite, y: Session, calls: seq<Call>, a: u32, k: nat)
    requires y.Valid() && calls != [] && k < |calls| - 1
    requires Do(cs, y, calls[0]).0.Valid() && ServedSince(cs, Do(cs, y, calls[0]).0, calls[1..], a, k)
    ensures ServedSince(cs, y, calls, a, k + 1)
  {
    hide Do, Served;
    var prefix := calls[..k + 1];
    assert prefix[0] == calls[0] && prefix[1..] == calls[1..][..k];
    assert calls[k + 1..] == calls[1..][k..];
  }

  lemma {:induction false} SpawnedInRun(cs: Suite, y: Session, calls: seq<Call>, a: u32)
    requires y.Valid() && Spawned(RunCalls(cs, y, calls), a)
    ensures || (Spawned(y, a) && CallRemove(a) !in calls)
            || exists k :: 0 <= k < |calls| && ServedSince(cs, y, calls, a, k)
    decreases |calls|
  {
    hide Do, Served, ServedSince, Spawned;
    if calls != [] {
      DoValid(cs, y, calls[0]);
      var y', rest := Do(cs, y, calls[0]).0, calls[1..];
      SpawnedInRun(cs, y', rest, a);
      if Spawned(y', a) && CallRemove(a) !in rest {
        assert calls == [calls[0]] + rest;
        FlagStep(cs, y, calls[0], a);
        if a in Served(cs, y, calls[0]) {
          ServedFirst(cs, y, calls, a);
        }
      } else {
        var k :| 0 <= k < |rest| && ServedSince(cs, y', rest, a, k);
        ServedSinceShift(cs, y, calls, a, k);
      }
    }
  }

  lemma ServedFirst(cs: Suite, y: Session, calls: seq<Call>, a: u32)
    requires y.Valid() && calls != [] && a in Served(cs, y, calls[0]) && CallRemove(a) !in calls[1..]
    ensures ServedSince(cs, y, calls, a, 0)
  {
    hide Do;
    assert RunCalls(cs, y, calls[..0]) == y;
    assert calls[0] != CallRemove(a);
    assert calls[0..] == [calls[0]] + calls[1..];
  }

  /**
   Between public calls every stream spawned from the template has served a packet, and this very
   stream has: the call that did was followed by no removal of its SSRC.
   */
  lemma SpawnedHaveServed(cs: Suite, role: Role, calls: seq<Call>, a: u32)
    requires Spawned(RunCalls(cs, NewSession(role), calls), a)
    ensures exists k :: 0 <= k < |calls| && ServedSince(cs, NewSession(role), calls, a, k)
  {
    hide RunCalls, ServedSince;
    SpawnedInRun(cs, NewSession(role), calls, a);
  }

  // ---- no (SSRC, index) pair is used twice ----

  predicate SeenIn(y: Session, a: u32, i: nat) {
    a in y.streams && y.streams[a].stream.base.rtp.Seen(i)
  }

  /** The (SSRC, index) pair of an RTP packet that a call protects or accepts. */
  function UsedPair(cs: Suite, y: Session, c: Call): seq<(u32, nat)>
    requires y.Valid()
  {
    if c.CallRtp? && Reaches(cs, y, c) && Do(cs, y, c).1.Ok? then
      var (ssrc, entry, e) := Target(cs, y, c);
      RequestFits(cs, y, c);
      [(ssrc, RtpIndexOf(entry.stream, e.h))]
    else []
  }

  function UsedPairs(cs: Suite, y: Session, calls: seq<Call>): seq<(u32, nat)>
    requires y.Valid()
    decreases |calls|
  {
    if calls == [] then []
    else
      DoValid(cs, y, calls[0]);
      UsedPair(cs, y, calls[0]) + UsedPairs(cs, Do(cs, y, calls[0]).0, calls[1..])
  }

  /** Replay protection is on for every sending stream there is, or may be spawned. */
  ghost predicate Guarded(y: Session) {
    y.role.Sender? ==>
      && (forall a | a in y.streams :: !y.streams[a].stream.base.allowSendRepeat)
      && (y.template.Some? ==> !y.template.value.allowSendRepeat)
  }

  /** No stream is removed, none may repeat, and no update uncovers forgotten window positions. */
  ghost predicate CarefulCall(y: Session, c: Call) {
    match c
    case CallRemove(_) => false
    case CallAddTemplate(config, _) =>
      && (y.role.Sender? ==> !config.allowSendRepeat)
      && (forall a | a in y.streams && y.streams[a].fromTemplate ::
            y.streams[a].stream.base.rtp.ResizeSafe(config.replayWindowSize))
    case CallAddSsrc(a, config, _) =>
      && (y.role.Sender? ==> !config.allowSendRepeat)
      && (a in y.streams ==> y.streams[a].stream.base.rtp.ResizeSafe(config.replayWindowSize))
    case _ => true
  }

  ghost predicate CarefulCalls(cs: Suite, y: Session, calls: seq<Call>)
    requires y.Valid()
    decreases |calls|
  {
    calls != [] ==>
      && CarefulCall(y, calls[0])
      && (DoValid(cs, y, calls[0]); CarefulCalls(cs, Do(cs, y, calls[0]).0, calls[1..]))
  }

  lemma UpdateSeen(cs: Suite, s: Stream, c: StreamConfig, order: seq<Mki>)
    requires s.Valid() && c.Valid() && SaltsFit(c) && s.base.rtp.ResizeSafe(c.replayWindowSize)
    ensures var s' := Update(cs, s, c, order).0;
            && (s'.base.allowSendRepeat ==> s.base.allowSendRepeat || c.allowSendRepeat)
            && s'.base.rtp.ResizeSafe(c.replayWindowSize)
            && (forall i: nat | s.base.rtp.Seen(i) :: s'.base.rtp.Seen(i))
  {
    hide StreamConfig.Valid, Transforms, Merge;
    SlidingWindow.ResizeKeepsSeen(s.base.rtp.window, 0, c.replayWindowSize);
  }

  lemma {:induction false} UpdateTemplatedSeen(cs: Suite, y: Session, c: StreamConfig, visits: seq<(u32, seq<Mki>)>)
    requires y.Valid() && c.Valid() && SaltsFit(c) && CarefulCall(y, CallAddTemplate(c, visits))
    ensures var y' := UpdateTemplated(cs, y, c, visits).0;
            && y'.streams.Keys == y.streams.Keys
            && (forall a | a in y.streams ::
                  y'.streams[a].stream.base.allowSendRepeat ==>
                    y.streams[a].stream.base.allowSendRepeat || c.allowSendRepeat)
            && (forall a, i: nat | SeenIn(y, a, i) :: SeenIn(y', a, i))
    decreases |visits|
  {
    hide StreamConfig.Valid, Update, RtpIndex.Seen;
    if visits != [] {
      var (a, order) := visits[0];
      if a in y.streams && y.streams[a].fromTemplate {
        var s := Update(cs, y.streams[a].stream, c, order).0;
        UpdateSeen(cs, y.streams[a].stream, c, order);
        UpdateHosts(cs, y, y.streams[a].stream, c, order);
        UpdateTemplatedSeen(cs, y.(streams := y.streams[a := Entry(s, true)]), c, visits[1..]);
      } else {
        UpdateTemplatedSeen(cs, y, c, visits[1..]);
      }
    }
  }

  /** Replay protection stays on, and a pair once seen, or just used, stays seen. */
  lemma CallSeen(cs: Suite, y: Session, c: Call, a: u32, i: nat)
    requires y.Valid() && Guarded(y) && CarefulCall(y, c)
    ensures Guarded(Do(cs, y, c).0)
    ensures SeenIn(y, a, i) || UsedPair(cs, y, c) == [(a, i)] ==> SeenIn(Do(cs, y, c).0, a, i)
  {
    if c.IsPacket() {
      PacketSeen(cs, y, c, a, i);
    } else {
      UpdateCallSeen(cs, y, c, a, i);
    }
  }

  lemma PacketSeen(cs: Suite, y: Session, c: Call, a: u32, i: nat)
    requires y.Valid() && Guarded(y) && c.IsPacket()
    ensures Guarded(Do(cs, y, c).0)
    ensures SeenIn(y, a, i) || UsedPair(cs, y, c) == [(a, i)] ==> SeenIn(Do(cs, y, c).0, a, i)
  {
    hide Do, Step, RtpIndex.Seen, RtpIndex.Estimate, Session.Find, Request, NewBase, RtpIndex.Add, Base.Spend, Guarded;
    if !Reaches(cs, y, c) {
      Unreached(cs, y, c);
    } else {
      PacketGuarded(cs, y, c);
      var (ssrc, entry, e) := Target(cs, y, c);
      Reached(cs, y, c);
      RequestFits(cs, y, c);
      if entry.stream.base.rtp.Seen(i) || UsedRtp(cs, entry.stream, e) == [i] {
        SeenSticks(cs, entry.stream, e, i);
      }
    }
  }

  lemma PacketGuarded(cs: Suite, y: Session, c: Call)
    requires y.Valid() && Guarded(y) && Reaches(cs, y, c)
    ensures Guarded(Do(cs, y, c).0)
    ensures var s := Target(cs, y, c).1.stream; s.side.Receiving? || !s.base.allowSendRepeat
  {
    hide Do, Step, RtpIndex.Seen, RtpIndex.Estimate, Session.Find, Request, NewBase, RtpIndex.Add, Base.Spend,
         StreamConfig.Valid, UsedMki, RtcpIndexOf, RtpIndexOf;
    var (ssrc, entry, e) := Target(cs, y, c);
    Reached(cs, y, c);
    RequestFits(cs, y, c);
    if ssrc !in y.streams {
      SpawnedRepeat(cs, y.role, ssrc, y.template.value);
    }
    if Step(cs, entry.stream, e).1.Ok? {
      Success(cs, entry.stream, e);
    } else {
      Otherwise(cs, entry.stream, e);
    }
  }

  lemma SpawnedRepeat(cs: Suite, role: Role, ssrc: u32, c: StreamConfig)
    requires c.Valid() && SaltsFit(c) && NewStream(cs, role, ssrc, c).Ok?
    ensures NewStream(cs, role, ssrc, c).value.base.allowSendRepeat == c.allowSendRepeat
  {
    hide StreamConfig.Valid, Transforms;
  }

  lemma UpdateCallSeen(cs: Suite, y: Session, c: Call, a: u32, i: nat)
    requires y.Valid() && Guarded(y) && CarefulCall(y, c) && !c.IsPacket()
    ensures Guarded(Do(cs, y, c).0)
    ensures SeenIn(y, a, i) ==> SeenIn(Do(cs, y, c).0, a, i)
  {
    hide StreamConfig.Valid, UpdateTemplated, Update, NewStream, RtpIndex.Seen;
    match c
    case CallAddTemplate(config, visits) =>
      if config.Valid() {
        ValidSaltsFit(config);
        UpdateTemplatedSeen(cs, y, config, visits);
        UpdateTemplatedValid(cs, y, config, visits);
      }
    case CallAddSsrc(ssrc, config, order) =>
      if config.Valid() {
        ValidSaltsFit(config);
        if ssrc in y.streams {
          UpdateSeen(cs, y.streams[ssrc].stream, config, order);
        } else if NewStream(cs, y.role, ssrc, config).Ok? {
          SpawnedRepeat(cs, y.role, ssrc, config);
        }
      }
    case CallSetRoc(ssrc, roc) =>
      if ssrc in y.streams {
        SetRocSeen(y.streams[ssrc].stream, roc, i);
      }
  }

  lemma SetRocSeen(s: Stream, roc: u32, i: nat)
    requires s.Valid()
    ensures SetRoc(s, roc).0.base.rtp.Seen(i) == s.base.rtp.Seen(i)
    ensures SetRoc(s, roc).0.base.allowSendRepeat == s.base.allowSendRepeat
  {
  }

  /** The pair a call uses was not seen before. */
  lemma UsedPairIsNew(cs: Suite, y: Session, c: Call)
    requires y.Valid() && Guarded(y) && UsedPair(cs, y, c) != []
    ensures !SeenIn(y, UsedPair(cs, y, c)[0].0, UsedPair(cs, y, c)[0].1)
  {
    hide Do, Step, RtpIndex.Seen, RtpIndex.Estimate, Session.Find, Request, NewBase;
    var (ssrc, entry, e) := Target(cs, y, c);
    Reached(cs, y, c);
    RequestFits(cs, y, c);
    Success(cs, entry.stream, e);
  }

  /**
   Over a whole session, across spawned streams, rolled-back spawns, MKI switches, re-keying and
   key deaths: no two RTP packets are protected (or accepted) under the same SSRC and index.
   */
  lemma {:induction false} PairsUsedOnce(cs: Suite, y: Session, calls: seq<Call>)
    requires y.Valid() && Guarded(y) && CarefulCalls(cs, y, calls)
    ensures Distinct(UsedPairs(cs, y, calls))
    ensures forall p | p in UsedPairs(cs, y, calls) :: !SeenIn(y, p.0, p.1)
    decreases |calls|
  {
    hide Do, SeenIn, UsedPair, Guarded;
    if calls != [] {
      var c := calls[0];
      DoValid(cs, y, c);
      CallSeen(cs, y, c, 0, 0);
      var y', used := Do(cs, y, c).0, UsedPair(cs, y, c);
      PairsUsedOnce(cs, y', calls[1..]);
      var rest := UsedPairs(cs, y', calls[1..]);
      forall p | p in rest
        ensures !SeenIn(y, p.0, p.1) && used != [p]
      {
        CallSeen(cs, y, c, p.0, p.1);
      }
      OnePair(cs, y, c);
      if used != [] {
        UsedPairIsNew(cs, y, c);
      }
    }
  }

  lemma OnePair(cs: Suite, y: Session, c: Call)
    requires y.Valid()
    ensures |UsedPair(cs, y, c)| <= 1
  {
    hide Do, Reaches;
  }

  lemma RunsValid(cs: Suite, y: Session, calls: seq<Call>, k: nat)
    requires y.Valid() && k < |calls|
    ensures k > 0 ==>
              && Do(cs, y, calls[0]).0.Valid()
              && calls[..k][0] == calls[0] && calls[..k][1..] == calls[1..][..k - 1]
    ensures k > 0 ==> RunCalls(cs, y, calls[..k]) == RunCalls(cs, Do(cs, y, calls[0]).0, calls[1..][..k - 1])
    ensures k == 0 ==> RunCalls(cs, y, calls[..k]) == y
  {
    hide Do;
    if k > 0 {
      DoValid(cs, y, calls[0]);
      assert calls[..k][1..] == calls[1..][..k - 1];
    }
  }

  /** The pair of every call of a run is among those of the run. */
  lemma {:induction false} PairIsUsed(cs: Suite, y: Session, calls: seq<Call>, k: nat)
    requires y.Valid() && k < |calls|
    ensures forall p | p in UsedPair(cs, RunCalls(cs, y, calls[..k]), calls[k]) :: p in UsedPairs(cs, y, calls)
    decreases |calls|
  {
    hide Do, UsedPair, RunCalls;
    RunsValid(cs, y, calls, k);
    DoValid(cs, y, calls[0]);
    if k > 0 {
      PairIsUsed(cs, Do(cs, y, calls[0]).0, calls[1..], k - 1);
    }
  }

  /** Two different calls of a run never use the same pair. */
  lemma {:induction false} CallsUseDifferentPairs(cs: Suite, y: Session, calls: seq<Call>, j: nat, k: nat)
    requires y.Valid() && Guarded(y) && CarefulCalls(cs, y, calls) && j < k < |calls|
    ensures forall p | p in UsedPair(cs, RunCalls(cs, y, calls[..j]), calls[j]) ::
              p !in UsedPair(cs, RunCalls(cs, y, calls[..k]), calls[k])
    decreases |calls|
  {
    hide Do, UsedPair, RunCalls, SeenIn, Guarded, UsedPairs;
    RunsValid(cs, y, calls, j);
    RunsValid(cs, y, calls, k);
    DoValid(cs, y, calls[0]);
    var y', rest := Do(cs, y, calls[0]).0, calls[1..];
    CallSeen(cs, y, calls[0], 0, 0);
    if j > 0 {
      CallsUseDifferentPairs(cs, y', rest, j - 1, k - 1);
    } else {
      PairsUsedOnce(cs, y', rest);
      PairIsUsed(cs, y', rest, k - 1);
      OnePair(cs, y, calls[0]);
      forall p | p in UsedPair(cs, y, calls[0])
        ensures SeenIn(y', p.0, p.1)
      {
        CallSeen(cs, y, calls[0], p.0, p.1);
      }
    }
  }

  // ---- the death of a key ----

  /** No stream of the template, present or to come, has a life left under this MKI. */
  ghost predicate DeadEverywhere(y: Session, mki: Mki) {
    && (forall a | a in y.streams && y.streams[a].fromTemplate ::
          y.streams[a].stream.base.Left(true, mki) == y.streams[a].stream.base.Left(false, mki) == 0)
    && (y.template.Some? ==>
          forall k | k in y.template.value.keys && k.mki == mki :: k.lifetime.rtp == k.lifetime.rtcp == 0)
  }

  lemma KillingKills(y: Session, mki: Mki)
    requires y.Valid()
    ensures DeadEverywhere(y.KillEverywhere(mki), mki)
    ensures var y' := y.KillEverywhere(mki);
            && y'.streams.Keys == y.streams.Keys
            && (forall a | a in y.streams && !y.streams[a].fromTemplate :: y'.streams[a] == y.streams[a])
            && (forall a, m, isRtp | a in y.streams && m != mki ::
                  y'.streams[a].stream.base.Left(isRtp, m) == y.streams[a].stream.base.Left(isRtp, m))
            && y'.template.Some? == y.template.Some?
            && (y.template.Some? ==>
                  var (c, c') := (y.template.value, y'.template.value);
                  && c' == c.(keys := c'.keys) && |c'.keys| == |c.keys|
                  && forall k | 0 <= k < |c.keys| :: c'.keys[k] ==
                       if c.keys[k].mki == mki then c.keys[k].(lifetime := NO_LIVES) else c.keys[k])
  {
    hide StreamConfig.Valid, Base.Kill, Transform.Transform.Valid;
    if y.template.Some? {
      var c := y.template.value;
      KillKeyKills(c, mki);
      forall k | k in KillKey(c, mki).keys && k.mki == mki
        ensures k.lifetime.rtp == k.lifetime.rtcp == 0
      {
        var j :| 0 <= j < |KillKey(c, mki).keys| && KillKey(c, mki).keys[j] == k;
      }
    }
  }

  /**
   The moment a stream of the template reports a dead key, that key is dead in all of them and in
   the template; other keys and the streams that are not of the template keep their lives.
   */
  lemma DeathSpreads(cs: Suite, y: Session, c: Call)
    requires y.Valid() && ReportsDeath(cs, y, c)
    ensures var y', mki := Do(cs, y, c).0, Do(cs, y, c).1.error.mki;
            && DeadEverywhere(y', mki)
            && y'.streams.Keys == y.streams.Keys
            && (forall a | a in y.streams && !y.streams[a].fromTemplate :: y'.streams[a] == y.streams[a])
            && (forall a, m, isRtp | a in y.streams && m != mki ::
                  y'.streams[a].stream.base.Left(isRtp, m) == y.streams[a].stream.base.Left(isRtp, m))
  {
    hide Do, Step, Session.Find, Request, Session.KillEverywhere, DeadEverywhere, StreamConfig.Valid;
    var (ssrc, entry, e) := Target(cs, y, c);
    Reached(cs, y, c);
    RequestFits(cs, y, c);
    Otherwise(cs, entry.stream, e);
    KillingKills(y, Do(cs, y, c).1.error.mki);
    if ssrc in y.streams {
      assert y.streams[ssrc := entry] == y.streams;
    }
  }

  lemma SpawnedDead(cs: Suite, role: Role, ssrc: u32, c: StreamConfig, mki: Mki)
    requires c.Valid() && SaltsFit(c) && NewStream(cs, role, ssrc, c).Ok?
    requires forall k | k in c.keys && k.mki == mki :: k.lifetime.rtp == k.lifetime.rtcp == 0
    ensures var b := NewStream(cs, role, ssrc, c).value.base; b.Left(true, mki) == b.Left(false, mki) == 0
  {
    hide StreamConfig.Valid, NewTransform, GoodEntry, BuiltFrom;
    ValidationSound(cs, c);
    TransformsBuilt(cs, c, |c.keys|);
    InMkisUpTo(c, |c.keys|, mki);
    if mki in Transforms(cs, c).value {
      var k :| 0 <= k < |c.keys| && c.keys[k].mki == mki;
      assert c.keys[k] in c.keys && Filed(cs, c, k, Transforms(cs, c).value);
    }
  }

  lemma StepDead(cs: Suite, s: Stream, e: Event, mki: Mki)
    requires s.Valid() && e.IsPacket()
    requires s.base.Left(true, mki) == s.base.Left(false, mki) == 0
    ensures var b := Step(cs, s, e).0.base; b.Left(true, mki) == b.Left(false, mki) == 0
    ensures Succeeds(cs, s, e) ==> UsedMki(s, e) != mki
  {
    hide Step, RtpIndex.Add, RtpIndex.Estimate, RtpIndex.Seen;
    if Succeeds(cs, s, e) {
      Success(cs, s, e);
    } else {
      Otherwise(cs, s, e);
    }
  }

  lemma KillKeepsKeysDead(c: StreamConfig, mki: Mki, killed: Mki)
    requires c.Valid() && forall k | k in c.keys && k.mki == mki :: k.lifetime.rtp == k.lifetime.rtcp == 0
    ensures forall k | k in KillKey(c, killed).keys && k.mki == mki :: k.lifetime.rtp == k.lifetime.rtcp == 0
  {
    KillKeyKills(c, killed);
    hide StreamConfig.Valid, KillKey;
    forall k | k in KillKey(c, killed).keys && k.mki == mki
      ensures k.lifetime.rtp == k.lifetime.rtcp == 0
    {
      var j :| 0 <= j < |KillKey(c, killed).keys| && KillKey(c, killed).keys[j] == k;
      assert c.keys[j] in c.keys;
    }
  }

  lemma KillKeepsStreamDead(e: Entry, mki: Mki, killed: Mki)
    requires e.fromTemplate ==> e.stream.base.Left(true, mki) == e.stream.base.Left(false, mki) == 0
    ensures var e' := KilledEntry(e, killed);
            && e'.fromTemplate == e.fromTemplate
            && (e.fromTemplate ==> e'.stream.base.Left(true, mki) == e'.stream.base.Left(false, mki) == 0)
  {
    hide Base.Kill;
  }

  lemma KillKeepsDead(y: Session, mki: Mki, killed: Mki)
    requires y.Valid() && DeadEverywhere(y, mki)
    ensures DeadEverywhere(y.KillEverywhere(killed), mki)
  {
    hide StreamConfig.Valid, KilledEntry, KillKey, Base.Left, Stream.Valid;
    forall a | a in y.streams
      ensures var e := KilledEntry(y.streams[a], killed);
              e.fromTemplate ==> e.stream.base.Left(true, mki) == e.stream.base.Left(false, mki) == 0
    {
      KillKeepsStreamDead(y.streams[a], mki, killed);
    }
    if y.template.Some? {
      KillKeepsKeysDead(y.template.value, mki, killed);
    }
  }

  lemma DeadPacket(cs: Suite, y: Session, c: Call, mki: Mki)
    requires y.Valid() && DeadEverywhere(y, mki) && c.IsPacket()
    ensures DeadEverywhere(Do(cs, y, c).0, mki)
    ensures Reaches(cs, y, c) && Target(cs, y, c).1.fromTemplate && Do(cs, y, c).1.Ok? ==>
              UsedMki(Target(cs, y, c).1.stream, Target(cs, y, c).2) != mki
  {
    hide Do, Step, Session.Find, Request, Session.KillEverywhere, StreamConfig.Valid, Base.Left, UsedMki, NewStream,
         KillKey;
    if !Reaches(cs, y, c) {
      Unreached(cs, y, c);
    } else {
      var (ssrc, entry, e) := Target(cs, y, c);
      Reached(cs, y, c);
      RequestFits(cs, y, c);
      var (s, r) := Step(cs, entry.stream, e);
      if entry.fromTemplate {
        if ssrc !in y.streams {
          SpawnedDead(cs, y.role, ssrc, y.template.value, mki);
        }
        StepDead(cs, entry.stream, e, mki);
      }
      if r.Err? {
        var y1 := if ssrc in y.streams then y.(streams := y.streams[ssrc := entry.(stream := s)]) else y;
        assert DeadEverywhere(y1, mki);
        if entry.fromTemplate && r.error.KeyLimit? && r.error.isDead {
          StepValid(cs, entry.stream, e);
          KillKeepsDead(y1, mki, r.error.mki);
        }
      }
    }
  }

  /** A dead key stays dead, and refuses every operation, until the next `add_stream`. */
  lemma DeathLasts(cs: Suite, y: Session, c: Call, mki: Mki)
    requires y.Valid() && DeadEverywhere(y, mki) && !c.CallAddTemplate? && !c.CallAddSsrc?
    ensures DeadEverywhere(Do(cs, y, c).0, mki)
    ensures Reaches(cs, y, c) && Target(cs, y, c).1.fromTemplate && Do(cs, y, c).1.Ok? ==>
              UsedMki(Target(cs, y, c).1.stream, Target(cs, y, c).2) != mki
  {
    if c.IsPacket() {
      DeadPacket(cs, y, c, mki);
    } else {
      hide StreamConfig.Valid, Request, SetRoc, Base.Left, RtpIndex.Roc;
      if c.CallSetRoc? && c.ssrc in y.streams {
        SetRocLeft(y.streams[c.ssrc].stream, c.roc, mki);
      }
    }
  }

  lemma SetRocLeft(s: Stream, roc: u32, mki: Mki)
    requires s.Valid()
    ensures SetRoc(s, roc).0.base.Left(true, mki) == s.base.Left(true, mki)
    ensures SetRoc(s, roc).0.base.Left(false, mki) == s.base.Left(false, mki)
  {
  }

  /** Along any run without an `add_stream`, no templated stream ever completes an operation with a dead key. */
  lemma {:induction false} DeadForever(cs: Suite, y: Session, calls: seq<Call>, mki: Mki, k: nat)
    requires y.Valid() && DeadEverywhere(y, mki) && k < |calls|
    requires forall j | 0 <= j < |calls| :: !calls[j].CallAddTemplate? && !calls[j].CallAddSsrc?
    ensures DeadEverywhere(RunCalls(cs, y, calls), mki)
    ensures var z, c := RunCalls(cs, y, calls[..k]), calls[k];
            Reaches(cs, z, c) && Target(cs, z, c).1.fromTemplate && Do(cs, z, c).1.Ok? ==>
              UsedMki(Target(cs, z, c).1.stream, Target(cs, z, c).2) != mki
    decreases |calls|
  {
    hide Do, DeadEverywhere, Reaches, UsedMki, Target;
    DoValid(cs, y, calls[0]);
    DeathLasts(cs, y, calls[0], mki);
    var y', rest := Do(cs, y, calls[0]).0, calls[1..];
    if k > 0 {
      assert calls[..k][0] == calls[0] && calls[..k][1..] == rest[..k - 1];
      DeadForever(cs, y', rest, mki, k - 1);
    } else {
      assert RunCalls(cs, y, calls[..0]) == y;
      if rest != [] {
        DeadForever(cs, y', rest, mki, 0);
      }
    }
  }
}
