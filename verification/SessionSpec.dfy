/** What a session does with its streams and its template, as functions from state to state. */
module SessionSpec {
  import opened Types
  import opened Crypto
  import opened Header
  import opened Transform
  import opened StreamConfig
  import opened StreamSpec
  import opened StreamRuns

  datatype Entry = Entry(stream: Stream, fromTemplate: bool)

  datatype Session = Session(role: Role, streams: map<u32, Entry>, template: Option<StreamConfig>) {
    ghost predicate Valid() {
      && (forall a | a in streams :: Hosts(streams[a].stream))
      && (template.Some? ==> template.value.Valid() && SaltsFit(template.value))
    }

    ghost predicate Hosts(s: Stream) {
      s.Valid() && (s.side.Sending? <==> role.Sender?)
    }

    /** The stream for this SSRC, spawned from the template when there is none; and whether it was. */
    function Find(cs: Suite, ssrc: u32): Result<(Entry, bool)>
      requires Valid()
    {
      if ssrc in streams then Ok((streams[ssrc], false))
      else if template.None? then Err(StreamNotFound)
      else
        var s :- NewStream(cs, role, ssrc, template.value);
        Ok((Entry(s, true), true))
    }

    /** A dead key is killed in every stream spawned from the template, and in the template. */
    function KillEverywhere(mki: Mki): Session {
      Session(role,
        KilledEntries(streams, mki),
        if template.Some? then Some(KillKey(template.value, mki)) else None)
    }

    function HandleStreamError(e: SrtpError, ssrc: u32, fromTemplate: bool, pending: bool): Session {
      var y := if pending then this.(streams := streams - {ssrc}) else this;
      if fromTemplate && e.KeyLimit? && e.isDead then y.KillEverywhere(e.mki) else y
    }
  }

  function KilledEntry(e: Entry, mki: Mki): Entry {
    if e.fromTemplate then e.(stream := e.stream.(base := e.stream.base.Kill(mki))) else e
  }

  function KilledEntries(v: map<u32, Entry>, mki: Mki): map<u32, Entry> {
    map a | a in v :: KilledEntry(v[a], mki)
  }

  function NewSession(role: Role): Session {
    Session(role, map[], None)
  }

  /** One packet operation on the stream of this SSRC. */
  function OnStream(cs: Suite, y: Session, ssrc: u32, e: Event): (Session, Result<Bytes>)
    requires y.Valid()
  {
    match y.Find(cs, ssrc)
    case Err(x) => (y, Err(x))
    case Ok((entry, pending)) =>
      FindHosts(cs, y, ssrc);
      var (s, r) := Step(cs, entry.stream, e);
      var y' := y.(streams := y.streams[ssrc := entry.(stream := s)]);
      if r.Ok? then (y', r) else (y'.HandleStreamError(r.error, ssrc, entry.fromTemplate, pending), r)
  }

  /**
   Updating the streams of the template, one after the other, until one refuses.  The order of the
   streams, and of the keys in each, is that of a hash map.
   */
  function UpdateTemplated(
    cs: Suite, y: Session, c: StreamConfig, visits: seq<(u32, seq<Mki>)>): (Session, Result<Unit>)
    requires c.Valid() && SaltsFit(c)
    decreases |visits|
  {
    if visits == [] then (y, Ok(()))
    else
      var (a, order) := visits[0];
      if a !in y.streams || !y.streams[a].fromTemplate then UpdateTemplated(cs, y, c, visits[1..])
      else
        var (s, r) := Update(cs, y.streams[a].stream, c, order);
        var y' := y.(streams := y.streams[a := Entry(s, true)]);
        if r.Err? then (y', r) else UpdateTemplated(cs, y', c, visits[1..])
  }

  /** Each stream of the template has its turn, and in it each key of the configuration. */
  ghost predicate CoversTemplated(y: Session, c: StreamConfig, visits: seq<(u32, seq<Mki>)>) {
    forall a | a in y.streams && y.streams[a].fromTemplate :: HasTurn(c, visits, a)
  }

  ghost predicate HasTurn(c: StreamConfig, visits: seq<(u32, seq<Mki>)>, a: u32) {
    exists k :: 0 <= k < |visits| && visits[k].0 == a && CoversKeys(c, visits[k].1)
  }

  lemma MoreTurns(c: StreamConfig, visits: seq<(u32, seq<Mki>)>, v: (u32, seq<Mki>))
    ensures forall a | HasTurn(c, visits, a) :: HasTurn(c, visits + [v], a)
    ensures CoversKeys(c, v.1) ==> HasTurn(c, visits + [v], v.0)
  {
    hide CoversKeys;
    var more := visits + [v];
    assert more[|visits|] == v;
    forall a | HasTurn(c, visits, a)
      ensures HasTurn(c, more, a)
    {
      var k :| 0 <= k < |visits| && visits[k].0 == a && CoversKeys(c, visits[k].1);
      assert more[k] == visits[k];
    }
  }

  function AddTemplate(cs: Suite, y: Session, c: StreamConfig, visits: seq<(u32, seq<Mki>)>): (Session, Result<Unit>)
  {
    if !c.Valid() then (y, Err(InvalidProfile))
    else
      ValidSaltsFit(c);
      var (y', r) := UpdateTemplated(cs, y, c, visits);
      if r.Err? then (y', r) else (y'.(template := Some(c)), r)
  }

  function AddSsrc(cs: Suite, y: Session, ssrc: u32, c: StreamConfig, order: seq<Mki>): (Session, Result<Unit>) {
    if !c.Valid() then (y, Err(InvalidProfile))
    else
      ValidSaltsFit(c);
      if ssrc !in y.streams then
        match NewStream(cs, y.role, ssrc, c)
        case Err(e) => (y, Err(e))
        case Ok(s) => (y.(streams := y.streams[ssrc := Entry(s, false)]), Ok(()))
      else
        var (s, r) := Update(cs, y.streams[ssrc].stream, c, order);
        (y.(streams := y.streams[ssrc := Entry(s, y.streams[ssrc].fromTemplate && r.Err?)]), r)
  }

  function RemoveStream(y: Session, ssrc: u32): (Session, Result<Unit>) {
    if ssrc in y.streams then (y.(streams := y.streams - {ssrc}), Ok(())) else (y, Err(StreamNotFound))
  }

  function GetRoc(y: Session, ssrc: u32): Result<u32>
    requires y.Valid()
  {
    if ssrc in y.streams then Ok(y.streams[ssrc].stream.base.rtp.Roc()) else Err(StreamNotFound)
  }

  // ---- the public interface, call by call ----

  datatype Call =
    | CallAddTemplate(config: StreamConfig, visits: seq<(u32, seq<Mki>)>)
    | CallAddSsrc(ssrc: u32, config: StreamConfig, order: seq<Mki>)
    | CallRemove(ssrc: u32)
    | CallSetRoc(ssrc: u32, roc: u32)
    | CallRtp(packet: Bytes, mki: Mki)
    | CallRtcp(packet: Bytes, mki: Mki)
  {
    predicate IsPacket() {
      CallRtp? || CallRtcp?
    }
  }

  /** The SSRC of a packet and the stream operation it asks for; receivers ignore the MKI argument. */
  function Request(role: Role, c: Call): Result<(u32, Event)>
    requires c.IsPacket()
  {
    if c.CallRtp? then
      var h :- ParseRtp(c.packet);
      Ok((h.ssrc, if role.Sender? then ProtectRtp(h, c.packet, c.mki) else UnprotectRtp(h, c.packet)))
    else
      var h :- ParseRtcp(c.packet);
      Ok((h.ssrc, if role.Sender? then ProtectRtcp(h, c.packet, c.mki) else UnprotectRtcp(h, c.packet)))
  }

  function Do(cs: Suite, y: Session, c: Call): (Session, Result<Bytes>)
    requires y.Valid()
  {
    match c
    case CallAddTemplate(config, visits) => var (y', r) := AddTemplate(cs, y, config, visits); (y', Done(r))
    case CallAddSsrc(ssrc, config, order) => var (y', r) := AddSsrc(cs, y, ssrc, config, order); (y', Done(r))
    case CallRemove(ssrc) => var (y', r) := RemoveStream(y, ssrc); (y', Done(r))
    case CallSetRoc(ssrc, roc) =>
      if ssrc !in y.streams then (y, Err(StreamNotFound))
      else
        var (s, r) := SetRoc(y.streams[ssrc].stream, roc);
        (y.(streams := y.streams[ssrc := y.streams[ssrc].(stream := s)]), Done(r))
    case CallRtp(_, _) =>
      (match Request(y.role, c)
       case Err(e) => (y, Err(e))
       case Ok((ssrc, e)) => OnStream(cs, y, ssrc, e))
    case CallRtcp(_, _) =>
      (match Request(y.role, c)
       case Err(e) => (y, Err(e))
       case Ok((ssrc, e)) => OnStream(cs, y, ssrc, e))
  }

  // ---- validity ----

  lemma FindHosts(cs: Suite, y: Session, ssrc: u32)
    requires y.Valid() && y.Find(cs, ssrc).Ok?
    ensures y.Hosts(y.Find(cs, ssrc).value.0.stream)
  {
    hide StreamConfig.Valid, NewBase;
    if ssrc !in y.streams {
      NewStreamValid(cs, y.role, ssrc, y.template.value);
    }
  }

  lemma KillValid(y: Session, mki: Mki)
    requires y.Valid()
    ensures y.KillEverywhere(mki).Valid()
  {
    hide StreamConfig.Valid, Base.Kill, KillKey, Transform.Valid;
    forall a | a in y.streams
      ensures y.Hosts(KilledEntry(y.streams[a], mki).stream)
    {
      SameTransformsValid(y.streams[a].stream.base, KilledEntry(y.streams[a], mki).stream.base);
    }
    if y.template.Some? {
      KillKeyKills(y.template.value, mki);
      ValidSaltsFit(KillKey(y.template.value, mki));
    }
  }

  lemma OnStreamValid(cs: Suite, y: Session, ssrc: u32, e: Event)
    requires y.Valid()
    ensures OnStream(cs, y, ssrc, e).0.Valid() && OnStream(cs, y, ssrc, e).0.role == y.role
  {
    hide Session.Find, Step, StreamConfig.Valid, Stream.Valid, Session.KillEverywhere;
    var found := y.Find(cs, ssrc);
    if found.Ok? {
      var (entry, pending) := found.value;
      FindHosts(cs, y, ssrc);
      StepValid(cs, entry.stream, e);
      var (s, r) := Step(cs, entry.stream, e);
      var y1 := y.(streams := y.streams[ssrc := entry.(stream := s)]);
      assert y1.Valid();
      if r.Err? {
        var y2 := if pending then y1.(streams := y1.streams - {ssrc}) else y1;
        assert y2.Valid();
        if entry.fromTemplate && r.error.KeyLimit? && r.error.isDead {
          KillValid(y2, r.error.mki);
          KillRole(y2, r.error.mki);
        }
      }
    }
  }

  lemma KillRole(y: Session, mki: Mki)
    ensures y.KillEverywhere(mki).role == y.role
  {
  }

  lemma {:induction false} UpdateTemplatedValid(cs: Suite, y: Session, c: StreamConfig, visits: seq<(u32, seq<Mki>)>)
    requires y.Valid() && c.Valid() && SaltsFit(c)
    ensures var y' := UpdateTemplated(cs, y, c, visits).0;
            y'.Valid() && y'.role == y.role && y'.template == y.template
    decreases |visits|
  {
    hide StreamConfig.Valid, Update, Stream.Valid;
    if visits != [] {
      var (a, order) := visits[0];
      if a !in y.streams || !y.streams[a].fromTemplate {
        UpdateTemplatedValid(cs, y, c, visits[1..]);
      } else {
        var s := Update(cs, y.streams[a].stream, c, order).0;
        UpdateHosts(cs, y, y.streams[a].stream, c, order);
        UpdateTemplatedValid(cs, y.(streams := y.streams[a := Entry(s, true)]), c, visits[1..]);
      }
    }
  }

  lemma UpdateHosts(cs: Suite, y: Session, s: Stream, c: StreamConfig, order: seq<Mki>)
    requires y.Hosts(s) && c.Valid() && SaltsFit(c)
    ensures y.Hosts(Update(cs, s, c, order).0)
  {
    hide StreamConfig.Valid, UpdateBase, Stream.Valid;
    UpdateKeepsKeys(cs, s, c, order);
  }

  lemma DoValid(cs: Suite, y: Session, c: Call)
    requires y.Valid()
    ensures Do(cs, y, c).0.Valid() && Do(cs, y, c).0.role == y.role
  {
    hide StreamConfig.Valid, OnStream, UpdateTemplated, Update, Step, NewBase, Request, SetRoc, Base.Valid;
    match c
    case CallAddTemplate(config, visits) =>
      if config.Valid() {
        ValidSaltsFit(config);
        UpdateTemplatedValid(cs, y, config, visits);
      }
    case CallAddSsrc(ssrc, config, order) =>
      if config.Valid() {
        ValidSaltsFit(config);
        if ssrc in y.streams {
          UpdateHosts(cs, y, y.streams[ssrc].stream, config, order);
        } else if NewStream(cs, y.role, ssrc, config).Ok? {
          NewStreamValid(cs, y.role, ssrc, config);
        }
      }
    case CallRemove(_) =>
    case CallSetRoc(ssrc, roc) =>
      if ssrc in y.streams {
        SetRocHosts(y, y.streams[ssrc].stream, roc);
      }
    case CallRtp(_, _) =>
      if Request(y.role, c).Ok? {
        OnStreamValid(cs, y, Request(y.role, c).value.0, Request(y.role, c).value.1);
      }
    case CallRtcp(_, _) =>
      if Request(y.role, c).Ok? {
        OnStreamValid(cs, y, Request(y.role, c).value.0, Request(y.role, c).value.1);
      }
  }

  lemma SetRocHosts(y: Session, s: Stream, roc: u32)
    requires y.Hosts(s)
    ensures y.Hosts(SetRoc(s, roc).0)
  {
  }

  // ---- loops over the streams ----

  /** The entries of a session when the dead key is still to be killed in the streams of `todo`. */
  function KilledExcept(v: map<u32, Entry>, todo: set<u32>, mki: Mki): map<u32, Entry> {
    map a | a in v :: if a in todo then v[a] else KilledEntry(v[a], mki)
  }

  lemma KilledEnds(v: map<u32, Entry>, mki: Mki)
    ensures KilledExcept(v, v.Keys, mki) == v
    ensures KilledExcept(v, {}, mki) == KilledEntries(v, mki)
  {
    hide KilledEntry;
  }

  lemma KilledOneMore(v: map<u32, Entry>, todo: set<u32>, a: u32, mki: Mki)
    requires a in v && a in todo
    ensures KilledExcept(v, todo - {a}, mki) == KilledExcept(v, todo, mki)[a := KilledEntry(v[a], mki)]
  {
    hide KilledEntry;
  }

  lemma {:induction false} UpdateTemplatedSnoc(
    cs: Suite, y: Session, c: StreamConfig, visits: seq<(u32, seq<Mki>)>, v: (u32, seq<Mki>))
    requires c.Valid() && SaltsFit(c) && UpdateTemplated(cs, y, c, visits).1.Ok?
    ensures UpdateTemplated(cs, y, c, visits + [v])
         == UpdateTemplated(cs, UpdateTemplated(cs, y, c, visits).0, c, [v])
    decreases |visits|
  {
    hide StreamConfig.Valid, Update, SaltsFit;
    if visits == [] {
      assert visits + [v] == [v];
    } else {
      var (a, order) := visits[0];
      assert (visits + [v])[0] == visits[0] && (visits + [v])[1..] == visits[1..] + [v];
      if a in y.streams && y.streams[a].fromTemplate {
        var s := Update(cs, y.streams[a].stream, c, order).0;
        UpdateTemplatedSnoc(cs, y.(streams := y.streams[a := Entry(s, true)]), c, visits[1..], v);
      } else {
        UpdateTemplatedSnoc(cs, y, c, visits[1..], v);
      }
    }
  }

  lemma NoVisits(cs: Suite, y: Session, c: StreamConfig)
    requires c.Valid() && SaltsFit(c)
    ensures UpdateTemplated(cs, y, c, []) == (y, Ok(()))
  {
    hide StreamConfig.Valid, SaltsFit;
  }

  lemma UpdateTemplatedOne(cs: Suite, y: Session, c: StreamConfig, a: u32, order: seq<Mki>)
    requires c.Valid() && SaltsFit(c) && a in y.streams && y.streams[a].fromTemplate
    ensures var (s, r) := Update(cs, y.streams[a].stream, c, order);
            UpdateTemplated(cs, y, c, [(a, order)]) == (y.(streams := y.streams[a := Entry(s, true)]), r)
  {
    hide StreamConfig.Valid, Update, SaltsFit;
    var visits := [(a, order)];
    assert visits[0] == (a, order) && visits[1..] == [];
    var (s, r) := Update(cs, y.streams[a].stream, c, order);
    assert r.Ok? ==> r.value == ();
  }

  // ---- packet calls, by role ----

  lemma DoRtp(cs: Suite, y: Session, packet: Bytes, mki: Mki)
    requires y.Valid()
    ensures Do(cs, y, CallRtp(packet, mki))
         == match ParseRtp(packet)
            case Err(e) => (y, Err(e))
            case Ok(h) =>
              OnStream(cs, y, h.ssrc, if y.role.Sender? then ProtectRtp(h, packet, mki) else UnprotectRtp(h, packet))
  {
    hide Session.Valid, OnStream, ParseRtp;
  }

  lemma DoRtcp(cs: Suite, y: Session, packet: Bytes, mki: Mki)
    requires y.Valid()
    ensures Do(cs, y, CallRtcp(packet, mki))
         == match ParseRtcp(packet)
            case Err(e) => (y, Err(e))
            case Ok(h) =>
              OnStream(cs, y, h.ssrc, if y.role.Sender? then ProtectRtcp(h, packet, mki) else UnprotectRtcp(h, packet))
  {
    hide Session.Valid, OnStream, ParseRtcp;
  }

  lemma DoSetRoc(cs: Suite, y: Session, ssrc: u32, roc: u32)
    requires y.Valid() && y.role.Receiver?
    ensures Do(cs, y, CallSetRoc(ssrc, roc))
         == if ssrc !in y.streams then (y, Err(StreamNotFound))
            else
              var (s, r) := Step(cs, y.streams[ssrc].stream, ForceRoc(roc));
              (y.(streams := y.streams[ssrc := y.streams[ssrc].(stream := s)]), r)
  {
    hide StreamConfig.Valid, SaltsFit, SetRoc, Stream.Valid;
  }
}
