/** What one sending or receiving stream does, as functions from state to state. */
module StreamSpec {
  import opened Types
  import opened Crypto
  import opened Header
  import opened ReplayIndex
  import opened StreamConfig

  datatype Base = Base(ssrc: u32, transforms: KeyMap, mkiLen: nat, rtp: RtpIndex, allowSendRepeat: bool) {
    ghost predicate Valid() {
      && rtp.Valid()
      && (forall m | m in transforms :: transforms[m].transform.Valid() && transforms[m].transform.Mki() == m)
    }

    function Left(isRtp: bool, mki: Mki): nat {
      if mki in transforms then transforms[mki].lives.Left(isRtp) else 0
    }

    function CheckKeyLimit(isRtp: bool, mki: Mki): (r: Result<Unit>)
      ensures r.Ok? <==> Left(isRtp, mki) > 0
    {
      if mki !in transforms then Err(InvalidMki)
      else if transforms[mki].lives.Left(isRtp) == 0 then Err(KeyLimit(isRtp, true, mki, ssrc))
      else Ok(())
    }

    function Spend(isRtp: bool, mki: Mki): (b: Base)
      requires Left(isRtp, mki) > 0
      ensures b == this.(transforms := b.transforms)
      ensures b.transforms.Keys == transforms.Keys
      ensures forall m | m in transforms :: b.transforms[m].transform == transforms[m].transform
      ensures forall m | m in transforms && m != mki :: b.transforms[m] == transforms[m]
    {
      var e := transforms[mki];
      this.(transforms := transforms[mki := e.(lives := e.lives.Decrease(isRtp))])
    }

    function Kill(mki: Mki): (b: Base)
      ensures b == this.(transforms := b.transforms)
      ensures b.transforms.Keys == transforms.Keys
      ensures forall m | m in transforms :: b.transforms[m].transform == transforms[m].transform
      ensures forall m | m in transforms && m != mki :: b.transforms[m] == transforms[m]
      ensures b.Left(true, mki) == b.Left(false, mki) == 0
    {
      if mki in transforms then
        var e := transforms[mki];
        this.(transforms := transforms[mki := e.(lives := e.lives.Killed())])
      else this
    }
  }

  function NewBase(cs: Suite, ssrc: u32, c: StreamConfig): Result<Base>
    requires c.Valid() && SaltsFit(c)
  {
    var transforms :- Transforms(cs, c);
    Ok(Base(ssrc, transforms, c.MkiLen(), NewRtpIndex(c.replayWindowSize), c.allowSendRepeat))
  }

  /**
   Merging stops at the first key whose transform differs; keys merged before that stay.  The order
   is the iteration order of a hash map, which nothing may depend on.
   */
  function Merge(keys: KeyMap, added: KeyMap, order: seq<Mki>): (KeyMap, bool)
    decreases |order|
  {
    if order == [] then (keys, true)
    else
      var m := order[0];
      if m !in added then Merge(keys, added, order[1..])
      else if m !in keys then Merge(keys[m := added[m]], added, order[1..])
      else if added[m].transform != keys[m].transform then (keys, false)
      else Merge(keys, added, order[1..])
  }

  /** An order in which each key of the configuration has its turn. */
  predicate CoversKeys(c: StreamConfig, order: seq<Mki>) {
    forall k | k in c.keys :: k.mki in order
  }

  function UpdateBase(cs: Suite, b: Base, c: StreamConfig, order: seq<Mki>): (Base, Result<Unit>)
    requires c.Valid() && SaltsFit(c)
  {
    if c.MkiLen() != b.mkiLen then (b, Err(InvalidProfile))
    else
      match Transforms(cs, c)
      case Err(e) => (b, Err(e))
      case Ok(added) =>
        var (merged, ok) := Merge(b.transforms, added, order);
        if !ok then (b.(transforms := merged), Err(InvalidProfile))
        else
          (b.(transforms := merged, rtp := b.rtp.Resize(c.replayWindowSize), allowSendRepeat := c.allowSendRepeat),
           Ok(()))
  }

  datatype Role = Sender | Receiver

  /** What a stream has beside its base: a counter when sending, a replay window when receiving. */
  datatype Side =
    | Sending(rtcpIndex: u31)
    | Receiving(rtcp: RtcpIndex, rtpTagLen: nat, rtcpTagLen: nat)

  datatype Stream = Stream(base: Base, side: Side) {
    ghost predicate Valid() {
      base.Valid() && (side.Receiving? ==> side.rtcp.Valid())
    }

    /** The MKI the receiver reads from a packet, right before the tag. */
    function GetMki(cipher: Bytes, headerLen: nat, isRtp: bool): (r: Result<Mki>)
      requires side.Receiving?
    {
      if base.mkiLen == 0 then Ok(None)
      else
        var tagLen := if isRtp then side.rtpTagLen else side.rtcpTagLen;
        if |cipher| < headerLen + base.mkiLen + tagLen then Err(InvalidPacket)
        else Ok(Some(cipher[|cipher| - tagLen - base.mkiLen..|cipher| - tagLen]))
    }
  }

  function NewSide(role: Role, c: StreamConfig): Side {
    match role
    case Sender => Sending(0)
    case Receiver => Receiving(NewRtcpIndex(c.replayWindowSize), c.rtpProfile.TagLen(), c.rtcpProfile.TagLen())
  }

  function NewStream(cs: Suite, role: Role, ssrc: u32, c: StreamConfig): Result<Stream>
    requires c.Valid() && SaltsFit(c)
  {
    var base :- NewBase(cs, ssrc, c);
    Ok(Stream(base, NewSide(role, c)))
  }

  function Update(cs: Suite, s: Stream, c: StreamConfig, order: seq<Mki>): (Stream, Result<Unit>)
    requires c.Valid() && SaltsFit(c)
  {
    var (base, r) := UpdateBase(cs, s.base, c, order);
    if r.Ok? && s.side.Receiving? then
      (Stream(base, s.side.(rtcp := s.side.rtcp.Resize(c.replayWindowSize))), r)
    else (s.(base := base), r)
  }

  function SetRoc(s: Stream, roc: u32): (Stream, Result<Unit>)
    requires s.Valid()
  {
    if roc < s.base.rtp.Roc() then (s, Err(InvalidPacketIndex))
    else (s.(base := s.base.(rtp := s.base.rtp.SetRoc(roc))), Ok(()))
  }

  /** The index an RTP operation on a packet with this header uses. */
  function RtpIndexOf(s: Stream, h: RtpHeader): nat
    requires s.Valid()
  {
    s.base.rtp.Estimate(h.seqNum)
  }

  /** Every failure leaves the stream untouched: indexes, windows, forced ROC and key lives. */
  function SendRtp(cs: Suite, s: Stream, h: RtpHeader, plain: Bytes, mki: Mki): (r: (Stream, Result<Bytes>))
    requires s.Valid() && s.side.Sending? && h.len <= |plain|
    ensures r.1.Err? ==> r.0 == s
  {
    var index := RtpIndexOf(s, h);
    if !s.base.allowSendRepeat && s.base.rtp.Seen(index) then (s, Err(InvalidPacketIndex))
    else
      match s.base.CheckKeyLimit(true, mki)
      case Err(e) => (s, Err(e))
      case Ok(_) =>
        match s.base.transforms[mki].transform.RtpProtected(cs, plain, h, RocOf(index))
        case Err(e) => (s, Err(e))
        case Ok(cipher) => (s.(base := s.base.Spend(true, mki).(rtp := s.base.rtp.Add(index))), Ok(cipher))
  }

  function SendRtcp(cs: Suite, s: Stream, h: RtcpHeader, plain: Bytes, mki: Mki): (r: (Stream, Result<Bytes>))
    requires s.Valid() && s.side.Sending? && RTCP_HEADER_SIZE <= |plain|
    ensures r.1.Err? ==> r.0 == s
  {
    match s.base.CheckKeyLimit(false, mki)
    case Err(e) => (s, Err(e))
    case Ok(_) =>
      match s.base.transforms[mki].transform.RtcpProtected(cs, plain, h, s.side.rtcpIndex)
      case Err(e) => (s, Err(e))
      case Ok(cipher) =>
        (Stream(s.base.Spend(false, mki), Sending((s.side.rtcpIndex + 1) % RTCP_ROLLBACK)), Ok(cipher))
  }

  function ReceiveRtp(cs: Suite, s: Stream, h: RtpHeader, cipher: Bytes): (r: (Stream, Result<Bytes>))
    requires s.Valid() && s.side.Receiving?
    ensures r.1.Err? ==> r.0 == s
  {
    var index := RtpIndexOf(s, h);
    if s.base.rtp.Seen(index) then (s, Err(InvalidPacketIndex))
    else
      match s.GetMki(cipher, h.len, true)
      case Err(e) => (s, Err(e))
      case Ok(mki) =>
        match s.base.CheckKeyLimit(true, mki)
        case Err(e) => (s, Err(e))
        case Ok(_) =>
          match s.base.transforms[mki].transform.RtpUnprotected(cs, cipher, h, RocOf(index))
          case Err(e) => (s, Err(e))
          case Ok(plain) => (s.(base := s.base.Spend(true, mki).(rtp := s.base.rtp.Add(index))), Ok(plain))
  }

  function RtcpTrailer(s: Stream): nat
    requires s.side.Receiving?
  {
    4 + s.side.rtcpTagLen + s.base.mkiLen
  }

  /** The index in the trailer of an SRTCP packet, without the E flag. */
  function RtcpIndexOf(s: Stream, cipher: Bytes): u31
    requires s.side.Receiving? && |cipher| >= RtcpTrailer(s)
  {
    U32At(cipher, |cipher| - RtcpTrailer(s)) % RTCP_ROLLBACK
  }

  function ReceiveRtcp(cs: Suite, s: Stream, h: RtcpHeader, cipher: Bytes): (r: (Stream, Result<Bytes>))
    requires s.Valid() && s.side.Receiving?
    ensures r.1.Err? ==> r.0 == s
  {
    if |cipher| < RTCP_HEADER_SIZE + RtcpTrailer(s) then (s, Err(InvalidPacket))
    else
      var index := RtcpIndexOf(s, cipher);
      if s.side.rtcp.Seen(index) then (s, Err(InvalidPacketIndex))
      else
        match s.GetMki(cipher, RTCP_HEADER_SIZE, false)
        case Err(e) => (s, Err(e))
        case Ok(mki) =>
          match s.base.CheckKeyLimit(false, mki)
          case Err(e) => (s, Err(e))
          case Ok(_) =>
            match s.base.transforms[mki].transform.RtcpUnprotected(cs, cipher, h, index, RtcpTrailer(s))
            case Err(e) => (s, Err(e))
            case Ok(plain) => (Stream(s.base.Spend(false, mki), s.side.(rtcp := s.side.rtcp.Add(index))), Ok(plain))
  }

  // ---- validity ----

  lemma {:induction false} MergeKeeps(keys: KeyMap, added: KeyMap, order: seq<Mki>)
    ensures var m := Merge(keys, added, order).0;
            && (forall i | i in keys :: i in m && m[i] == keys[i])
            && (forall i | i in m && i !in keys :: i in added && m[i] == added[i])
            && (Merge(keys, added, order).1 ==>
                  forall i | i in order && i in added :: i in m && m[i].transform == added[i].transform)
    decreases |order|
  {
    if order != [] {
      var m := order[0];
      if m in added && m !in keys {
        MergeKeeps(keys[m := added[m]], added, order[1..]);
      } else {
        MergeKeeps(keys, added, order[1..]);
      }
      assert order == [m] + order[1..];
    }
  }

  lemma NewStreamValid(cs: Suite, role: Role, ssrc: u32, c: StreamConfig)
    requires c.Valid() && SaltsFit(c) && NewStream(cs, role, ssrc, c).Ok?
    ensures NewStream(cs, role, ssrc, c).value.Valid()
  {
    hide StreamConfig.Valid;
    ValidationSound(cs, c);
  }

  /** Re-keying never touches a key already in use, not even when it fails half-way. */
  lemma UpdateKeepsKeys(cs: Suite, s: Stream, c: StreamConfig, order: seq<Mki>)
    requires s.Valid() && c.Valid() && SaltsFit(c)
    ensures var s' := Update(cs, s, c, order).0;
            && s'.Valid()
            && (forall m | m in s.base.transforms ::
                  m in s'.base.transforms && s'.base.transforms[m] == s.base.transforms[m])
  {
    hide StreamConfig.Valid, Transforms;
    ValidationSound(cs, c);
    if Transforms(cs, c).Ok? {
      MergeKeeps(s.base.transforms, Transforms(cs, c).value, order);
    }
  }
}
