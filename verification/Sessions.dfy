/** A session: the streams of one direction, by SSRC, and the template for the unknown ones. */
module Sessions {
  import opened Types
  import opened Crypto
  import opened Header
  import opened ReplayIndex
  import opened StreamConfig
  import opened StreamSpec
  import opened StreamRuns
  import opened AnyStream
  import opened SessionSpec

  type StreamMap = map<u32, (AnyStream, bool)>

  ghost function Footprint(m: StreamMap): set<object> {
    set a, o | a in m && o in m[a].0.Repr() :: o
  }

  /** No two streams share an object. */
  ghost predicate Separate(m: StreamMap) {
    forall a, b | a in m && b in m && a != b :: m[a].0.Repr() !! m[b].0.Repr()
  }

  ghost function Views(m: StreamMap): map<u32, Entry>
    reads Footprint(m)
  {
    map a | a in m :: Entry(m[a].0.View(), m[a].1)
  }

  ghost predicate Good(cs: Suite, role: Role, m: StreamMap)
    reads Footprint(m)
  {
    && Separate(m)
    && (forall a | a in m :: m[a].0.Valid(cs, role))
  }

  lemma WithoutStream(cs: Suite, role: Role, m: StreamMap, a: u32)
    requires Good(cs, role, m)
    ensures Good(cs, role, m - {a}) && Footprint(m - {a}) <= Footprint(m)
    ensures Views(m - {a}) == Views(m) - {a}
  {
    hide AnyStream.Valid, AnyStream.View, AnyStream.Repr;
  }

  lemma WithStream(cs: Suite, role: Role, m: StreamMap, a: u32, s: AnyStream, fromTemplate: bool)
    requires Good(cs, role, m) && s.Valid(cs, role)
    requires forall b | b in m && b != a :: m[b].0.Repr() !! s.Repr()
    ensures Good(cs, role, m[a := (s, fromTemplate)])
    ensures Footprint(m[a := (s, fromTemplate)]) <= Footprint(m) + s.Repr()
    ensures Views(m[a := (s, fromTemplate)]) == Views(m)[a := Entry(s.View(), fromTemplate)]
  {
    hide AnyStream.Valid, AnyStream.View, AnyStream.Repr;
  }

  lemma SameKeys(m: StreamMap)
    ensures Views(m).Keys == m.Keys
  {
  }

  lemma SameFlags(m: StreamMap)
    ensures Views(m).Keys == m.Keys && forall a | a in m :: Views(m)[a].fromTemplate == m[a].1
  {
    hide AnyStream.View;
  }

  lemma ViewAt(m: StreamMap, a: u32)
    requires a in m
    ensures m == m[a := m[a]]
    ensures Views(m) == Views(m)[a := Entry(m[a].0.View(), m[a].1)]
    ensures Views(m)[a] == Entry(m[a].0.View(), m[a].1)
    ensures m[a].0.Repr() <= Footprint(m)
  {
  }

  lemma MemberGood(cs: Suite, role: Role, m: StreamMap, a: u32, e: Event)
    requires Good(cs, role, m) && a in m && FitsRole(e, role)
    ensures e.Fits(m[a].0.View()) && (e.IsPacket() || e.ForceRoc?)
  {
    hide AnyStream.View;
    m[a].0.ViewValid(cs, role);
  }

  lemma FootprintAllocated(m: StreamMap)
    ensures forall o | o in Footprint(m) :: allocated(o)
  {
  }

  lemma Apart(cs: Suite, role: Role, m: StreamMap, s: AnyStream)
    requires Footprint(m) !! s.Repr()
    ensures forall b | b in m :: m[b].0.Repr() !! s.Repr()
  {
    hide AnyStream.Repr;
    forall b | b in m
      ensures m[b].0.Repr() !! s.Repr()
    {
      assert m[b].0.Repr() <= Footprint(m);
    }
  }

  /** When one stream changed and is valid, and the others did not move, all is well. */
  lemma OneChanged(cs: Suite, role: Role, m: StreamMap, a: u32, before: map<u32, Entry>)
    requires a in m && Separate(m) && before.Keys == m.Keys
    requires forall b | b in m :: m[b].0.Valid(cs, role)
    requires forall b | b in m && b != a :: Entry(m[b].0.View(), m[b].1) == before[b]
    ensures Good(cs, role, m)
    ensures Views(m) == before[a := Entry(m[a].0.View(), m[a].1)]
  {
    hide AnyStream.Repr, AnyStream.Valid, AnyStream.View;
  }

  lemma Members(cs: Suite, role: Role, m: StreamMap)
    requires Good(cs, role, m)
    ensures Separate(m) && Views(m).Keys == m.Keys
    ensures forall b | b in m :: m[b].0.Valid(cs, role)
    ensures forall b | b in m :: Entry(m[b].0.View(), m[b].1) == Views(m)[b]
    ensures forall b | b in m :: m[b].0.View().Valid() && (m[b].0.View().side.Sending? <==> role.Sender?)
    ensures forall b, o | b in m && o in m[b].0.Repr() :: allocated(o)
  {
    hide AnyStream.Valid, AnyStream.View, AnyStream.Repr, Stream.Valid;
    forall b | b in m
      ensures m[b].0.View().Valid() && (m[b].0.View().side.Sending? <==> role.Sender?)
      ensures forall o | o in m[b].0.Repr() :: allocated(o)
    {
      m[b].0.ViewValid(cs, role);
    }
  }

  class SessionObject {
    const cs: Suite
    const role: Role
    var streams: StreamMap
    var templateConfig: Option<StreamConfig>

    ghost function Repr(): set<object>
      reads this
    {
      {this} + Footprint(streams)
    }

    ghost predicate Valid()
      reads this, Repr()
    {
      && this !in Footprint(streams)
      && Good(cs, role, streams)
      && (templateConfig.Some? ==> templateConfig.value.Valid() && SaltsFit(templateConfig.value))
    }

    ghost function View(): (y: Session)
      reads this, Repr()
      ensures y.role == role
    {
      Session(role, Views(streams), templateConfig)
    }

    lemma ViewValid()
      requires Valid()
      ensures View().Valid()
    {
      hide StreamConfig.Valid, SaltsFit, Good, Views, AnyStream.Valid, AnyStream.View, AnyStream.Repr, Stream.Valid;
      Members(cs, role, streams);
      SameKeys(streams);
    }

    constructor (cs: Suite, role: Role)
      ensures Valid() && fresh(Repr()) && View() == NewSession(role)
    {
      this.cs := cs;
      this.role := role;
      streams := map[];
      templateConfig := None;
    }

    method RemoveStream(ssrc: u32) returns (r: Result<Unit>)
      requires Valid()
      modifies this`streams
      ensures Valid() && Repr() <= old(Repr())
      ensures (View(), r) == SessionSpec.RemoveStream(old(View()), ssrc)
    {
      hide StreamConfig.Valid, SaltsFit, Footprint, Good;
      if ssrc !in streams {
        return Err(StreamNotFound);
      }
      WithoutStream(cs, role, streams, ssrc);
      streams := streams - {ssrc};
      r := Ok(());
    }

    method GetRoc(ssrc: u32) returns (r: Result<u32>)
      requires Valid()
      ensures View().Valid() && r == SessionSpec.GetRoc(View(), ssrc)
    {
      ViewValid();
      hide StreamConfig.Valid, SaltsFit, Good, Footprint, Views, AnyStream.Valid, AnyStream.View, AnyStream.Repr,
           RtpIndex.Roc, Session.Valid;
      SameKeys(streams);
      if ssrc !in streams {
        return Err(StreamNotFound);
      }
      Members(cs, role, streams);
      var roc := streams[ssrc].0.GetRoc(cs, role);
      r := Ok(roc);
    }

    /** Adds a new stream, when its transforms can be built. */
    method Insert(ssrc: u32, config: StreamConfig, fromTemplate: bool) returns (r: Result<AnyStream>)
      requires Valid() && config.Valid() && SaltsFit(config)
      modifies this`streams
      ensures Valid() && fresh(Repr() - old(Repr())) && templateConfig == old(templateConfig)
      ensures r.Err? ==>
                && streams == old(streams) && Views(streams) == old(Views(streams))
                && NewStream(cs, role, ssrc, config) == Err(r.error)
      ensures r.Ok? ==>
                && r.value.Valid(cs, role) && NewStream(cs, role, ssrc, config) == Ok(r.value.View())
                && streams == old(streams)[ssrc := (r.value, fromTemplate)]
                && Views(streams) == old(Views(streams))[ssrc := Entry(r.value.View(), fromTemplate)]
    {
      hide StreamConfig.Valid, SaltsFit, Transforms, Footprint, Good, NewStream, Views,
           AnyStream.Valid, AnyStream.View, AnyStream.Repr;
      ghost var footprint := Footprint(streams);
      FootprintAllocated(streams);
      r := NewAnyStream(cs, role, ssrc, config);
      assert forall o | o in footprint :: unchanged(o);
      if r.Ok? {
        assert footprint !! r.value.Repr();
        Apart(cs, role, streams, r.value);
        WithStream(cs, role, streams, ssrc, r.value, fromTemplate);
        streams := streams[ssrc := (r.value, fromTemplate)];
      }
    }

    /** The stream for this SSRC, spawned from the template when there is none. */
    method GetStream(ssrc: u32) returns (r: Result<(AnyStream, bool, bool)>)
      requires Valid()
      modifies this`streams
      ensures Valid() && fresh(Repr() - old(Repr()))
      ensures templateConfig == old(templateConfig) && old(View()).Valid()
      ensures r.Err? ==> View() == old(View()) && old(View()).Find(cs, ssrc) == Err(r.error)
      ensures r.Ok? ==>
                var (s, fromTemplate, pending) := r.value;
                && streams == old(streams)[ssrc := (s, fromTemplate)]
                && old(View()).Find(cs, ssrc) == Ok((Entry(s.View(), fromTemplate), pending))
                && Views(streams) == old(Views(streams))[ssrc := Entry(s.View(), fromTemplate)]
    {
      ViewValid();
      hide StreamConfig.Valid, SaltsFit, Footprint, Good, Session.Valid, NewStream, Views,
           AnyStream.Valid, AnyStream.View, AnyStream.Repr;
      SameKeys(streams);
      if ssrc in streams {
        ViewAt(streams, ssrc);
        return Ok((streams[ssrc].0, streams[ssrc].1, false));
      }
      if templateConfig.None? {
        return Err(StreamNotFound);
      }
      var s := Insert(ssrc, templateConfig.value, true);
      r := if s.Err? then Err(s.error) else Ok((s.value, true, true));
    }

    method KillTemplate(mki: Mki)
      requires templateConfig.Some? && templateConfig.value.Valid()
      modifies this`templateConfig
      ensures templateConfig == Some(KillKey(old(templateConfig).value, mki))
      ensures templateConfig.value.Valid() && SaltsFit(templateConfig.value)
    {
      var config := templateConfig.value;
      KillKeyKills(config, mki);
      hide StreamConfig.Valid, WithLives;
      var config', r := SetKeysLifetimeMki(config, Lives(0, 0, 0, 0), mki);
      if r.Err? {
        NoHit(config.keys, mki, NO_LIVES);
      }
      templateConfig := Some(config');
      ValidSaltsFit(config');
    }

    /** Kills the key in one stream, when that was spawned from the template. */
    method KillOne(a: u32, mki: Mki)
      requires Valid() && a in streams
      modifies streams[a].0.Repr()
      ensures Valid()
      ensures Views(streams) == old(Views(streams))[a := KilledEntry(old(Views(streams))[a], mki)]
    {
      hide StreamConfig.Valid, SaltsFit, Footprint, Good, Views, KilledEntry,
           AnyStream.Valid, AnyStream.View, AnyStream.Repr;
      ghost var before := Views(streams);
      ViewAt(streams, a);
      Members(cs, role, streams);
      KilledIs(before[a], mki);
      if streams[a].1 {
        streams[a].0.KillSessionKeys(cs, role, mki);
        forall b | b in streams && b != a
          ensures streams[b].0.Valid(cs, role) && streams[b].0.View() == old(streams[b].0.View())
        {
          assert streams[b].0.Repr() !! streams[a].0.Repr();
        }
        OneChanged(cs, role, streams, a, before);
      }
    }

    /** Kills the key in every stream spawned from the template, and in the template. */
    method KillEverywhere(mki: Mki)
      requires Valid()
      modifies Repr()
      ensures Valid() && streams == old(streams)
      ensures View() == old(View()).KillEverywhere(mki)
    {
      hide StreamConfig.Valid, SaltsFit, Footprint, Good, Views, KilledEntry, KillKey,
           AnyStream.Valid, AnyStream.View, AnyStream.Repr;
      ghost var before := Views(streams);
      SameKeys(streams);
      var todo := streams.Keys;
      KilledEnds(before, mki);
      while todo != {}
        invariant todo <= streams.Keys == before.Keys
        invariant streams == old(streams) && templateConfig == old(templateConfig)
        invariant Valid()
        invariant Views(streams) == KilledExcept(before, todo, mki)
        decreases |todo|
      {
        var a :| a in todo;
        KilledOneMore(before, todo, a, mki);
        ViewAt(streams, a);
        KillOne(a, mki);
        todo := todo - {a};
      }
      FootprintAllocated(streams);
      if templateConfig.Some? {
        KillTemplate(mki);
      }
    }

    method HandleStreamError(e: SrtpError, ssrc: u32, fromTemplate: bool, pending: bool)
      requires Valid()
      modifies Repr()
      ensures Valid() && Repr() <= old(Repr())
      ensures View() == old(View()).HandleStreamError(e, ssrc, fromTemplate, pending)
    {
      hide StreamConfig.Valid, SaltsFit, Footprint, Good, Views, Session.KillEverywhere;
      if pending {
        SameKeys(streams);
        NoSuchStream(Views(streams), ssrc);
        var _ := RemoveStream(ssrc);
      }
      if fromTemplate && e.KeyLimit? && e.isDead {
        KillEverywhere(e.mki);
      }
    }

    /** Updates one stream of the session, which leaves the others alone. */
    method UpdateOne(a: u32, config: StreamConfig) returns (r: Result<Unit>, ghost order: seq<Mki>)
      requires Valid() && a in streams && config.Valid() && SaltsFit(config)
      modifies streams[a].0.Repr()
      ensures Valid()
      ensures var (s, r') := Update(cs, old(streams[a].0.View()), config, order);
              r == r' && Views(streams) == old(Views(streams))[a := Entry(s, streams[a].1)]
      ensures r.Ok? ==> CoversKeys(config, order)
    {
      hide StreamConfig.Valid, SaltsFit, Footprint, Good, Views, Update,
           AnyStream.Valid, AnyStream.View, AnyStream.Repr, Base.Valid;
      ghost var before := Views(streams);
      ViewAt(streams, a);
      Members(cs, role, streams);
      r, order := streams[a].0.Update(cs, role, config);
      forall b | b in streams && b != a
        ensures streams[b].0.Valid(cs, role) && Entry(streams[b].0.View(), streams[b].1) == before[b]
      {
        assert streams[b].0.Repr() !! streams[a].0.Repr();
      }
      OneChanged(cs, role, streams, a, before);
    }

    /** Re-keys every stream spawned from the template, until one refuses. */
    method UpdateTemplated(config: StreamConfig) returns (r: Result<Unit>, ghost visits: seq<(u32, seq<Mki>)>)
      requires Valid() && config.Valid() && SaltsFit(config)
      modifies Repr()
      ensures Valid() && streams == old(streams)
      ensures (View(), r) == SessionSpec.UpdateTemplated(cs, old(View()), config, visits)
      ensures r.Ok? ==> CoversTemplated(old(View()), config, visits)
    {
      hide StreamConfig.Valid, SaltsFit, Footprint, Good, Views, Update, SessionSpec.UpdateTemplated,
           AnyStream.Valid, AnyStream.View, AnyStream.Repr, Base.Valid;
      visits := [];
      ghost var before := View();
      NoVisits(cs, before, config);
      SameFlags(streams);
      SameKeys(streams);
      var todo := streams.Keys;
      while todo != {}
        invariant todo <= streams.Keys
        invariant Valid() && streams == old(streams) && templateConfig == old(templateConfig)
        invariant SessionSpec.UpdateTemplated(cs, before, config, visits) == (View(), Ok(()))
        invariant forall a | a in streams && a !in todo && streams[a].1 :: HasTurn(config, visits, a)
        decreases |todo|
      {
        var a :| a in todo;
        todo := todo - {a};
        ViewAt(streams, a);
        SameKeys(streams);
        if streams[a].1 {
          ghost var here := View();
          ghost var order;
          r, order := UpdateOne(a, config);
          ghost var updated := Entry(Update(cs, here.streams[a].stream, config, order).0, true);
          assert View() == here.(streams := here.streams[a := updated]);
          assert r.Ok? ==> r.value == ();
          UpdateTemplatedOne(cs, here, config, a, order);
          UpdateTemplatedSnoc(cs, before, config, visits, (a, order));
          MoreTurns(config, visits, (a, order));
          visits := visits + [(a, order)];
          if r.Err? {
            return;
          }
        }
      }
      r := Ok(());
    }

    /** Adds or updates the stream of an SSRC, or, without one, the template. */
    method AddStream(ssrc: Option<u32>, config: StreamConfig)
      returns (r: Result<Unit>, ghost visits: seq<(u32, seq<Mki>)>, ghost order: seq<Mki>)
      requires Valid()
      modifies Repr()
      ensures Valid() && old(View()).Valid() && forall o | o in Repr() - old(Repr()) :: fresh(o)
      ensures ssrc.None? ==> (View(), r) == AddTemplate(cs, old(View()), config, visits)
      ensures ssrc.Some? ==> (View(), r) == AddSsrc(cs, old(View()), ssrc.value, config, order)
      ensures r.Ok? ==>
                if ssrc.None? then CoversTemplated(old(View()), config, visits)
                else ssrc.value in old(streams) ==> CoversKeys(config, order)
    {
      hide StreamConfig.Valid, SaltsFit, Footprint, Good, Views, Update, SessionSpec.UpdateTemplated, NewStream,
           AnyStream.Valid, AnyStream.View, AnyStream.Repr, Base.Valid, Session.Valid;
      visits, order := [], [];
      ViewValid();
      FootprintAllocated(streams);
      var valid := Validate(config);
      if valid.Err? {
        r := valid;
        return;
      }
      ValidSaltsFit(config);
      if ssrc.None? {
        r, visits := UpdateTemplated(config);
        if r.Ok? {
          FootprintAllocated(streams);
          templateConfig := Some(config);
        }
        assert Repr() == old(Repr());
      } else {
        ghost var mine := Repr();
        label before:
        r, order := AddWithSsrc(ssrc.value, config);
        forall o | o in Repr() - old(Repr())
          ensures fresh(o)
        {
          assert o in Repr() - mine && fresh@before(o);
        }
      }
    }

    method AddWithSsrc(ssrc: u32, config: StreamConfig) returns (r: Result<Unit>, ghost order: seq<Mki>)
      requires Valid() && config.Valid() && SaltsFit(config)
      modifies Repr()
      ensures Valid() && fresh(Repr() - old(Repr()))
      ensures (View(), r) == AddSsrc(cs, old(View()), ssrc, config, order)
      ensures r.Ok? && ssrc in old(streams) ==> CoversKeys(config, order)
    {
      hide StreamConfig.Valid, SaltsFit, Footprint, Good, Views, Update, NewStream,
           AnyStream.Valid, AnyStream.View, AnyStream.Repr, Base.Valid, Session.Valid;
      order := [];
      SameKeys(streams);
      if ssrc !in streams {
        var s := Insert(ssrc, config, false);
        r := if s.Err? then Err(s.error) else Ok(());
      } else {
        ViewAt(streams, ssrc);
        ghost var before := Views(streams);
        r, order := UpdateOne(ssrc, config);
        ghost var s := Update(cs, before[ssrc].stream, config, order).0;
        assert streams == old(streams) && Repr() == old(Repr());
        if r.Ok? {
          ClearFlag(ssrc);
        }
        assert Views(streams) == before[ssrc := Entry(s, before[ssrc].fromTemplate && r.Err?)];
      }
    }

    /** From now on the stream is one that was added by its SSRC. */
    method ClearFlag(ssrc: u32)
      requires Valid() && ssrc in streams
      modifies this`streams
      ensures Valid() && Repr() <= old(Repr()) && templateConfig == old(templateConfig)
      ensures old(Views(streams)).Keys == old(streams).Keys
      ensures Views(streams) == old(Views(streams))[ssrc := old(Views(streams))[ssrc].(fromTemplate := false)]
    {
      hide StreamConfig.Valid, SaltsFit, Footprint, Good, Views,
           AnyStream.Valid, AnyStream.View, AnyStream.Repr, Base.Valid;
      ViewAt(streams, ssrc);
      Members(cs, role, streams);
      FootprintAllocated(streams);
      WithStream(cs, role, streams, ssrc, streams[ssrc].0, false);
      streams := streams[ssrc := (streams[ssrc].0, false)];
    }

    /** One operation on a stream of the session, which leaves the others alone. */
    method StepOne(ssrc: u32, e: Event) returns (r: Result<Bytes>)
      requires Valid() && ssrc in streams && e.Fits(streams[ssrc].0.View()) && (e.IsPacket() || e.ForceRoc?)
      modifies streams[ssrc].0.Repr()
      ensures Valid() && streams == old(streams) && templateConfig == old(templateConfig)
      ensures var before := old(streams[ssrc].0.View());
              var (s, r') := if before.Valid() then Step(cs, before, e) else (before, r);
              && before.Valid() && r == r'
              && Views(streams) == old(Views(streams))[ssrc := Entry(s, streams[ssrc].1)]
    {
      hide StreamConfig.Valid, SaltsFit, Footprint, Good, Views, Step, Event.Fits,
           AnyStream.Valid, AnyStream.View, AnyStream.Repr, Base.Valid;
      ghost var before := Views(streams);
      ViewAt(streams, ssrc);
      Members(cs, role, streams);
      r := streams[ssrc].0.Step(cs, role, e);
      forall b | b in streams && b != ssrc
        ensures streams[b].0.Valid(cs, role) && Entry(streams[b].0.View(), streams[b].1) == before[b]
      {
        assert streams[b].0.Repr() !! streams[ssrc].0.Repr();
      }
      OneChanged(cs, role, streams, ssrc, before);
    }

    /** One operation on the stream of this SSRC, and what its failure entails. */
    method OnStream(ssrc: u32, e: Event) returns (r: Result<Bytes>)
      requires Valid() && FitsRole(e, role)
      modifies Repr()
      ensures Valid() && fresh(Repr() - old(Repr()))
      ensures old(View()).Valid() && (View(), r) == SessionSpec.OnStream(cs, old(View()), ssrc, e)
    {
      hide StreamConfig.Valid, SaltsFit, Footprint, Good, Views, Step, Session.Find, Session.Valid, FitsRole,
           Session.HandleStreamError, AnyStream.Valid, AnyStream.View, AnyStream.Repr, Stream.Valid, Event.Fits;
      var found := GetStream(ssrc);
      if found.Err? {
        return Err(found.error);
      }
      var (stream, fromTemplate, pending) := found.value;
      ViewAt(streams, ssrc);
      MemberGood(cs, role, streams, ssrc, e);
      ghost var spawned := Entry(stream.View(), fromTemplate);
      assert Views(streams)[ssrc] == spawned;
      r := StepOne(ssrc, e);
      ghost var stepped := Entry(Step(cs, spawned.stream, e).0, fromTemplate);
      assert View() == old(View()).(streams := old(View()).streams[ssrc := stepped]);
      if r.Err? {
        HandleStreamError(r.error, ssrc, fromTemplate, pending);
      }
    }

    /** Parsing the header of a packet leaves the session alone. */
    method ReadHeader(packet: Bytes) returns (r: Result<RtpHeader>)
      requires Valid()
      ensures r == ParseRtp(packet)
      ensures Valid() && View() == old(View()) && Repr() == old(Repr())
    {
      hide StreamConfig.Valid, SaltsFit, Good, Footprint, Views, ParseRtp;
      FootprintAllocated(streams);
      ghost var footprint := Footprint(streams);
      r := NewRtpHeader(packet);
      assert forall o | o in footprint :: unchanged(o);
    }

    method RtpProtectMki(plain: Bytes, mki: Mki) returns (r: Result<Bytes>)
      requires Valid() && role.Sender?
      modifies Repr()
      ensures Valid() && forall o | o in Repr() - old(Repr()) :: fresh(o)
      ensures old(View()).Valid() && (View(), r) == Do(cs, old(View()), CallRtp(plain, mki))
    {
      hide StreamConfig.Valid, SaltsFit, Good, Footprint, Views, Do, SessionSpec.OnStream, Session.Valid,
           ParseRtp, ParseRtcp;
      ViewValid();
      DoRtp(cs, View(), plain, mki);
      ghost var mine := Repr();
      var header := ReadHeader(plain);
      if header.Err? {
        return Err(header.error);
      }
      label parsed:
      r := OnStream(header.value.ssrc, ProtectRtp(header.value, plain, mki));
      forall o | o in Repr() - mine
        ensures fresh(o)
      {
        assert fresh@parsed(o);
      }
    }

    method RtcpProtectMki(plain: Bytes, mki: Mki) returns (r: Result<Bytes>)
      requires Valid() && role.Sender?
      modifies Repr()
      ensures Valid() && fresh(Repr() - old(Repr()))
      ensures old(View()).Valid() && (View(), r) == Do(cs, old(View()), CallRtcp(plain, mki))
    {
      hide StreamConfig.Valid, SaltsFit, Good, Footprint, Views, Do, SessionSpec.OnStream, Session.Valid,
           ParseRtp, ParseRtcp;
      ViewValid();
      DoRtcp(cs, View(), plain, mki);
      var header := ParseRtcp(plain);
      if header.Err? {
        return Err(header.error);
      }
      r := OnStream(header.value.ssrc, ProtectRtcp(header.value, plain, mki));
    }

    /** The receiver reads the MKI from the packet. */
    method RtpUnprotect(cipher: Bytes) returns (r: Result<Bytes>)
      requires Valid() && role.Receiver?
      modifies Repr()
      ensures Valid() && forall o | o in Repr() - old(Repr()) :: fresh(o)
      ensures old(View()).Valid() && (View(), r) == Do(cs, old(View()), CallRtp(cipher, None))
    {
      hide StreamConfig.Valid, SaltsFit, Good, Footprint, Views, Do, SessionSpec.OnStream, Session.Valid,
           ParseRtp, ParseRtcp;
      ViewValid();
      DoRtp(cs, View(), cipher, None);
      ghost var mine := Repr();
      var header := ReadHeader(cipher);
      if header.Err? {
        return Err(header.error);
      }
      label parsed:
      r := OnStream(header.value.ssrc, UnprotectRtp(header.value, cipher));
      forall o | o in Repr() - mine
        ensures fresh(o)
      {
        assert fresh@parsed(o);
      }
    }

    method RtcpUnprotect(cipher: Bytes) returns (r: Result<Bytes>)
      requires Valid() && role.Receiver?
      modifies Repr()
      ensures Valid() && fresh(Repr() - old(Repr()))
      ensures old(View()).Valid() && (View(), r) == Do(cs, old(View()), CallRtcp(cipher, None))
    {
      hide StreamConfig.Valid, SaltsFit, Good, Footprint, Views, Do, SessionSpec.OnStream, Session.Valid,
           ParseRtp, ParseRtcp;
      ViewValid();
      DoRtcp(cs, View(), cipher, None);
      var header := ParseRtcp(cipher);
      if header.Err? {
        return Err(header.error);
      }
      r := OnStream(header.value.ssrc, UnprotectRtcp(header.value, cipher));
    }

    method SetRoc(ssrc: u32, roc: u32) returns (r: Result<Unit>)
      requires Valid() && role.Receiver?
      modifies Repr()
      ensures Valid() && streams == old(streams)
      ensures old(View()).Valid() && (View(), Done(r)) == Do(cs, old(View()), CallSetRoc(ssrc, roc))
    {
      hide *;
      ViewValid();
      DoSetRoc(cs, View(), ssrc, roc);
      var done := ForceRocAt(ssrc, roc);
      r := if done.Ok? then Ok(()) else Err(done.error);
      DoneIs(r);
    }

    method ForceRocAt(ssrc: u32, roc: u32) returns (r: Result<Bytes>)
      requires Valid() && role.Receiver?
      modifies Repr()
      ensures Valid() && streams == old(streams)
      ensures r.Ok? ==> r.value == []
      ensures var y := old(View());
              var e := ForceRoc(roc);
              if ssrc !in y.streams then View() == y && r == Err(StreamNotFound)
              else
                && y.streams[ssrc].stream.Valid()
                && r == Step(cs, y.streams[ssrc].stream, e).1
                && View() == y.(streams := y.streams[ssrc :=
                     y.streams[ssrc].(stream := Step(cs, y.streams[ssrc].stream, e).0)])
    {
      hide StreamConfig.Valid, SaltsFit, Footprint, Good, Views, Event.Fits, Step,
           AnyStream.Valid, AnyStream.View, AnyStream.Repr, Stream.Valid;
      SameKeys(streams);
      if ssrc !in streams {
        return Err(StreamNotFound);
      }
      ViewAt(streams, ssrc);
      MemberGood(cs, role, streams, ssrc, ForceRoc(roc));
      ghost var s := streams[ssrc].0.View();
      r := StepOne(ssrc, ForceRoc(roc));
      StepDone(cs, s, roc);
    }
  }

  lemma DoneIs(r: Result<Unit>)
    ensures Done(r) == if r.Ok? then Ok([]) else Err(r.error)
  {
  }

  lemma StepDone(cs: Suite, s: Stream, roc: u32)
    requires s.Valid()
    ensures var r := Step(cs, s, ForceRoc(roc)).1;
            r.Ok? ==> r.value == []
  {
    hide Stream.Valid, StreamSpec.SetRoc;
  }

  /** The operations a session of this role asks of its streams, on a packet that holds its header. */
  predicate FitsRole(e: Event, role: Role) {
    match e
    case ProtectRtp(h, p, _) => role.Sender? && h.len <= |p|
    case ProtectRtcp(_, p, _) => role.Sender? && RTCP_HEADER_SIZE <= |p|
    case UnprotectRtp(_, _) => role.Receiver?
    case UnprotectRtcp(_, _) => role.Receiver?
    case ForceRoc(_) => role.Receiver?
    case _ => false
  }

  lemma NoSuchStream(v: map<u32, Entry>, ssrc: u32)
    ensures ssrc !in v ==> v - {ssrc} == v
  {
  }

  lemma KilledIs(e: Entry, mki: Mki)
    ensures KilledEntry(e, mki)
         == if e.fromTemplate then e.(stream := e.stream.(base := e.stream.base.Kill(mki))) else e
  {
  }
}
