/** Streams of either kind, as the objects a session holds; all that the session asks of them. */
module AnyStream {
  import opened Types
  import opened Crypto
  import opened ReplayIndex
  import opened StreamConfig
  import opened StreamSpec
  import opened StreamRuns
  import opened Streams

  datatype AnyStream = SendObject(send: SendStream) | RecvObject(recv: RecvStream) {
    ghost function Repr(): set<object> {
      match this
      case SendObject(s) => s.Repr()
      case RecvObject(s) => s.Repr()
    }

    ghost function View(): Stream
      reads Repr()
    {
      match this
      case SendObject(s) => s.View()
      case RecvObject(s) => s.View()
    }

    /** A valid stream of this kind, built on these primitives. */
    ghost predicate Valid(cs: Suite, role: Role)
      reads Repr()
    {
      match this
      case SendObject(s) => s.Valid() && s.base.cs == cs && role.Sender?
      case RecvObject(s) => s.Valid() && s.base.cs == cs && role.Receiver?
    }

    lemma ViewValid(cs: Suite, role: Role)
      requires Valid(cs, role)
      ensures View().Valid() && (View().side.Sending? <==> role.Sender?)
      ensures forall o | o in Repr() :: allocated(o)
    {
      hide Base.Valid;
    }

    method GetRoc(ghost cs: Suite, ghost role: Role) returns (roc: u32)
      requires Valid(cs, role)
      ensures roc == View().base.rtp.Roc()
    {
      match this
      case SendObject(s) => roc := s.base.GetRoc();
      case RecvObject(s) => roc := s.base.GetRoc();
    }

    method Update(cs: Suite, ghost role: Role, config: StreamConfig) returns (r: Result<Unit>, ghost order: seq<Mki>)
      requires Valid(cs, role) && config.Valid() && SaltsFit(config)
      modifies Repr()
      ensures Valid(cs, role) && (View(), r) == StreamSpec.Update(cs, old(View()), config, order)
      ensures r.Ok? ==> forall k | k in config.keys :: k.mki in order
    {
      hide StreamConfig.Valid, SaltsFit, StreamSpec.Update, Base.Valid;
      match this
      case SendObject(s) => r, order := s.Update(config);
      case RecvObject(s) => r, order := s.Update(config);
    }

    method KillSessionKeys(ghost cs: Suite, ghost role: Role, mki: Mki)
      requires Valid(cs, role)
      modifies Repr()
      ensures Valid(cs, role) && View() == old(View()).(base := old(View()).base.Kill(mki))
    {
      hide Base.Valid, Base.Kill;
      match this
      case SendObject(s) => s.KillSessionKeys(mki);
      case RecvObject(s) => s.KillSessionKeys(mki);
    }

    /** A packet operation that fits the stream. */
    method Step(cs: Suite, ghost role: Role, e: Event) returns (r: Result<Bytes>)
      requires Valid(cs, role) && e.Fits(View()) && (e.IsPacket() || e.ForceRoc?)
      modifies Repr()
      ensures Valid(cs, role) && old(View()).Valid() && (View(), r) == StreamRuns.Step(cs, old(View()), e)
    {
      ViewValid(cs, role);
      hide Base.Valid, SendRtp, SendRtcp, ReceiveRtp, ReceiveRtcp, RtpIndex.Roc, RtpIndex.SetRoc;
      match this
      case SendObject(s) =>
        match e {
          case ProtectRtp(h, p, mki) => r := s.RtpProtect(h, p, mki);
          case ProtectRtcp(h, p, mki) => r := s.RtcpProtect(h, p, mki);
        }
      case RecvObject(s) =>
        match e {
          case UnprotectRtp(h, p) => r := s.RtpUnprotect(h, p);
          case UnprotectRtcp(h, p) => r := s.RtcpUnprotect(h, p);
          case ForceRoc(roc) =>
            var done := s.SetRoc(roc);
            r := if done.Ok? then Ok([]) else Err(done.error);
        }
    }
  }

  method NewAnyStream(cs: Suite, role: Role, ssrc: u32, config: StreamConfig) returns (r: Result<AnyStream>)
    requires config.Valid() && SaltsFit(config)
    ensures r.Err? ==> NewStream(cs, role, ssrc, config) == Err(r.error)
    ensures r.Ok? ==>
              && r.value.Valid(cs, role) && fresh(r.value.Repr())
              && NewStream(cs, role, ssrc, config) == Ok(r.value.View())
  {
    hide StreamConfig.Valid, SaltsFit, NewStream, Base.Valid;
    if role.Sender? {
      var s := NewSendStream(cs, ssrc, config);
      r := if s.Ok? then Ok(SendObject(s.value)) else Err(s.error);
    } else {
      var s := NewRecvStream(cs, ssrc, config);
      r := if s.Ok? then Ok(RecvObject(s.value)) else Err(s.error);
    }
  }
}
