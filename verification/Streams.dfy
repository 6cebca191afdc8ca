/** Sending and receiving streams, as objects that update themselves in place. */
module Streams {
  import opened Types
  import opened Crypto
  import opened Header
  import opened ReplayIndex
  import opened Replay
  import Transform
  import opened StreamConfig
  import opened StreamSpec
  import opened StreamRuns

  class BaseStream {
    const cs: Suite
    const ssrc: u32
    var transforms: KeyMap
    const mkiLen: nat
    const rtpIndex: RtpReplayDb
    var allowSendRepeat: bool

    ghost function Repr(): set<object> {
      {this, rtpIndex}
    }

    ghost function View(): Base
      reads Repr()
    {
      Base(ssrc, transforms, mkiLen, rtpIndex.View(), allowSendRepeat)
    }

    ghost predicate Valid()
      reads Repr()
    {
      rtpIndex.Valid() && View().Valid()
    }

    constructor (cs: Suite, ssrc: u32, config: StreamConfig, transforms: KeyMap)
      requires config.Valid() && SaltsFit(config) && Transforms(cs, config) == Ok(transforms)
      ensures Valid() && fresh(Repr()) && this.cs == cs && NewBase(cs, ssrc, config) == Ok(View())
    {
      ValidNonEmpty(config);
      hide StreamConfig.Valid;
      this.cs := cs;
      this.ssrc := ssrc;
      this.transforms := transforms;
      this.mkiLen := config.MkiLen();
      this.rtpIndex := new RtpReplayDb(config.replayWindowSize);
      this.allowSendRepeat := config.allowSendRepeat;
      new;
      NewStreamValid(cs, Sender, ssrc, config);
    }

    method Update(config: StreamConfig) returns (r: Result<Unit>, ghost order: seq<Mki>)
      requires Valid() && config.Valid() && SaltsFit(config)
      modifies Repr()
      ensures Valid() && (View(), r) == UpdateBase(cs, old(View()), config, order)
      ensures r.Ok? ==> forall k | k in config.keys :: k.mki in order
    {
      ValidNonEmpty(config);
      hide StreamConfig.Valid, Merge, Base.Valid, Transforms;
      order := [];
      if config.MkiLen() != mkiLen {
        r := Err(InvalidProfile);
        return;
      }
      var newTransforms := GetTransforms(cs, config);
      if newTransforms.Err? {
        r := Err(newTransforms.error);
        return;
      }
      KeysAreFiled(cs, config);
      var ok;
      ok, order := MergeTransforms(newTransforms.value);
      UpdateBaseValid(cs, old(View()), config, order);
      if ok {
        rtpIndex.SetWindowSize(config.replayWindowSize);
        allowSendRepeat := config.allowSendRepeat;
      }
      r := if ok then Ok(()) else Err(InvalidProfile);
    }

    /** Adds the keys that are new, and stops at one that differs from the key already there. */
    method MergeTransforms(added: KeyMap) returns (ok: bool, ghost order: seq<Mki>)
      modifies this`transforms
      ensures Merge(old(transforms), added, order) == (transforms, ok)
      ensures ok ==> forall m | m in added :: m in order
    {
      order := [];
      var todo := added.Keys;
      while todo != {}
        invariant todo <= added.Keys
        invariant forall m | m in added :: m in todo || m in order
        invariant Merge(old(transforms), added, order) == (transforms, true)
        decreases |todo|
      {
        var mki :| mki in todo;
        todo := todo - {mki};
        MergeSnoc(old(transforms), added, order, mki);
        order := order + [mki];
        if mki !in transforms {
          transforms := transforms[mki := added[mki]];
        } else if added[mki].transform != transforms[mki].transform {
          return false, order;
        }
      }
      ok := true;
    }

    method GetRoc() returns (roc: u32)
      requires Valid()
      ensures roc == View().rtp.Roc()
    {
      roc := rtpIndex.GetRoc();
    }

    method CheckKeyLimit(isRtp: bool, mki: Mki) returns (r: Result<Unit>)
      ensures r == View().CheckKeyLimit(isRtp, mki)
    {
      if mki !in transforms {
        return Err(InvalidMki);
      }
      var lives := transforms[mki].lives;
      var lifetime := if isRtp then lives.rtp else lives.rtcp;
      if lifetime == 0 {
        return Err(KeyLimit(isRtp, true, mki, ssrc));
      }
      r := Ok(());
    }

    /** The life that a successful operation costs. */
    method Decrease(isRtp: bool, mki: Mki)
      requires Valid() && View().Left(isRtp, mki) > 0
      modifies this`transforms
      ensures Valid() && View() == old(View()).Spend(isRtp, mki)
    {
      hide Base.Valid;
      SameTransformsValid(View(), View().Spend(isRtp, mki));
      var e := transforms[mki];
      var lives := e.lives;
      if isRtp {
        lives := lives.(rtp := lives.rtp - 1);
        if lives.rtp == 0 {
          lives := lives.(rtcp := 0);
        }
      } else {
        lives := lives.(rtcp := lives.rtcp - 1);
        if lives.rtcp == 0 {
          lives := lives.(rtp := 0);
        }
      }
      transforms := transforms[mki := e.(lives := lives)];
    }

    method KillSessionKeys(mki: Mki)
      requires Valid()
      modifies this`transforms
      ensures Valid() && View() == old(View()).Kill(mki)
    {
      hide Base.Valid;
      SameTransformsValid(View(), View().Kill(mki));
      if mki in transforms {
        var e := transforms[mki];
        var lives := e.lives;
        lives := lives.(rtp := 0);
        lives := lives.(rtcp := 0);
        transforms := transforms[mki := e.(lives := lives)];
      }
    }
  }

  lemma MergeSnoc(keys: KeyMap, added: KeyMap, order: seq<Mki>, mki: Mki)
    requires Merge(keys, added, order).1
    ensures Merge(keys, added, order + [mki]) == Merge(Merge(keys, added, order).0, added, [mki])
    decreases |order|
  {
    if order == [] {
      assert order + [mki] == [mki];
    } else {
      var m := order[0];
      assert (order + [mki])[0] == m && (order + [mki])[1..] == order[1..] + [mki];
      MergeSnoc(if m in added && m !in keys then keys[m := added[m]] else keys, added, order[1..], mki);
    }
  }

  lemma KeysAreFiled(cs: Suite, c: StreamConfig)
    requires c.Valid() && SaltsFit(c) && Transforms(cs, c).Ok?
    ensures forall k | k in c.keys :: k.mki in Transforms(cs, c).value
  {
    hide StreamConfig.Valid, Transforms;
    ValidationSound(cs, c);
    forall k | k in c.keys
      ensures k.mki in Transforms(cs, c).value
    {
      var j :| 0 <= j < |c.keys| && c.keys[j] == k;
      assert Filed(cs, c, j, Transforms(cs, c).value);
    }
  }

  lemma UpdateBaseValid(cs: Suite, b: Base, c: StreamConfig, order: seq<Mki>)
    requires b.Valid() && c.Valid() && SaltsFit(c)
    ensures UpdateBase(cs, b, c, order).0.Valid()
  {
    hide StreamConfig.Valid, UpdateBase;
    UpdateKeepsKeys(cs, Stream(b, Sending(0)), c, order);
  }

  class SendStream {
    const base: BaseStream
    var rtcpIndex: u31

    ghost function Repr(): set<object> {
      {this} + base.Repr()
    }

    ghost function View(): Stream
      reads Repr()
    {
      Stream(base.View(), Sending(rtcpIndex))
    }

    ghost predicate Valid()
      reads Repr()
    {
      base.Valid()
    }

    constructor (cs: Suite, ssrc: u32, config: StreamConfig, transforms: KeyMap)
      requires config.Valid() && SaltsFit(config) && Transforms(cs, config) == Ok(transforms)
      ensures Valid() && fresh(Repr()) && base.cs == cs && NewStream(cs, Sender, ssrc, config) == Ok(View())
    {
      base := new BaseStream(cs, ssrc, config, transforms);
      rtcpIndex := 0;
    }

    method Update(config: StreamConfig) returns (r: Result<Unit>, ghost order: seq<Mki>)
      requires Valid() && config.Valid() && SaltsFit(config)
      modifies Repr()
      ensures Valid() && (View(), r) == StreamSpec.Update(base.cs, old(View()), config, order)
      ensures r.Ok? ==> forall k | k in config.keys :: k.mki in order
    {
      r, order := base.Update(config);
    }

    method KillSessionKeys(mki: Mki)
      requires Valid()
      modifies Repr()
      ensures Valid() && View() == old(View()).(base := old(View()).base.Kill(mki))
    {
      base.KillSessionKeys(mki);
    }

    method RtpProtect(h: RtpHeader, plain: Bytes, mki: Mki) returns (r: Result<Bytes>)
      requires Valid() && h.len <= |plain|
      modifies Repr()
      ensures Valid() && (View(), r) == SendRtp(base.cs, old(View()), h, plain, mki)
    {
      hide RtpIndex.Estimate, RtpIndex.Add, RtpIndex.Seen, Base.Spend, Transform.Transform.RtpProtected, Base.Valid;
      StepValid(base.cs, View(), ProtectRtp(h, plain, mki));
      var index := base.rtpIndex.EstimateIndex(h.seqNum);
      if !base.allowSendRepeat {
        var seen := base.rtpIndex.SeenIndex(index);
        if seen {
          return Err(InvalidPacketIndex);
        }
      }
      var limit := base.CheckKeyLimit(true, mki);
      if limit.Err? {
        return Err(limit.error);
      }
      var t := base.transforms[mki].transform;
      EntryValid(base.View(), mki);
      var cipher := Transform.RtpProtect(base.cs, t, plain, h, index / 0x1_0000 % 0x1_0000_0000);
      if cipher.Err? {
        return cipher;
      }
      base.Decrease(true, mki);
      base.rtpIndex.AddIndex(index);
      r := cipher;
    }

    method RtcpProtect(h: RtcpHeader, plain: Bytes, mki: Mki) returns (r: Result<Bytes>)
      requires Valid() && RTCP_HEADER_SIZE <= |plain|
      modifies Repr()
      ensures Valid() && (View(), r) == SendRtcp(base.cs, old(View()), h, plain, mki)
    {
      hide Base.Spend, Transform.Transform.RtcpProtected, Base.Valid, Transform.Transform.Valid;
      var limit := base.CheckKeyLimit(false, mki);
      if limit.Err? {
        return Err(limit.error);
      }
      var t := base.transforms[mki].transform;
      EntryValid(base.View(), mki);
      r := Transform.RtcpProtect(base.cs, t, plain, h, rtcpIndex);
      if r.Err? {
        return;
      }
      base.Decrease(false, mki);
      rtcpIndex := (rtcpIndex + 1) % 0x8000_0000;
    }
  }

  lemma EntryValid(b: Base, mki: Mki)
    requires b.Valid() && mki in b.transforms
    ensures b.transforms[mki].transform.Valid()
  {
    hide Transform.Transform.Valid;
  }

  class RecvStream {
    const base: BaseStream
    const rtcpIndex: RtcpReplayDb
    const rtpTagLen: nat
    const rtcpTagLen: nat

    ghost function Repr(): set<object> {
      {this, rtcpIndex} + base.Repr()
    }

    ghost function View(): Stream
      reads Repr()
    {
      Stream(base.View(), Receiving(rtcpIndex.View(), rtpTagLen, rtcpTagLen))
    }

    ghost predicate Valid()
      reads Repr()
    {
      base.Valid() && rtcpIndex.Valid()
    }

    constructor (cs: Suite, ssrc: u32, config: StreamConfig, transforms: KeyMap)
      requires config.Valid() && SaltsFit(config) && Transforms(cs, config) == Ok(transforms)
      ensures Valid() && fresh(Repr()) && base.cs == cs && NewStream(cs, Receiver, ssrc, config) == Ok(View())
    {
      hide StreamConfig.Valid, Transforms;
      base := new BaseStream(cs, ssrc, config, transforms);
      rtcpIndex := new RtcpReplayDb(config.replayWindowSize);
      rtpTagLen := config.rtpProfile.TagLen();
      rtcpTagLen := config.rtcpProfile.TagLen();
    }

    method Update(config: StreamConfig) returns (r: Result<Unit>, ghost order: seq<Mki>)
      requires Valid() && config.Valid() && SaltsFit(config)
      modifies Repr()
      ensures Valid() && (View(), r) == StreamSpec.Update(base.cs, old(View()), config, order)
      ensures r.Ok? ==> forall k | k in config.keys :: k.mki in order
    {
      hide StreamConfig.Valid, UpdateBase;
      r, order := base.Update(config);
      if r.Ok? {
        rtcpIndex.SetWindowSize(config.replayWindowSize);
      }
    }

    method KillSessionKeys(mki: Mki)
      requires Valid()
      modifies Repr()
      ensures Valid() && View() == old(View()).(base := old(View()).base.Kill(mki))
    {
      base.KillSessionKeys(mki);
    }

    method GetMki(cipher: Bytes, headerLen: nat, isRtp: bool) returns (r: Result<Mki>)
      ensures r == View().GetMki(cipher, headerLen, isRtp)
    {
      var mkiLen := base.mkiLen;
      if mkiLen == 0 {
        return Ok(None);
      }
      var tagLen := if isRtp then rtpTagLen else rtcpTagLen;
      if |cipher| < headerLen + mkiLen + tagLen {
        return Err(InvalidPacket);
      }
      r := Ok(Some(cipher[|cipher| - tagLen - mkiLen..|cipher| - tagLen]));
    }

    method SetRoc(roc: u32) returns (r: Result<Unit>)
      requires Valid()
      modifies Repr()
      ensures Valid() && (View(), r) == StreamSpec.SetRoc(old(View()), roc)
    {
      hide RtpIndex.Roc;
      var current := base.GetRoc();
      if roc < current {
        return Err(InvalidPacketIndex);
      }
      base.rtpIndex.SetRoc(roc);
      r := Ok(());
    }

    method RtpUnprotect(h: RtpHeader, cipher: Bytes) returns (r: Result<Bytes>)
      requires Valid()
      modifies Repr()
      ensures Valid() && (View(), r) == ReceiveRtp(base.cs, old(View()), h, cipher)
    {
      hide RtpIndex.Estimate, RtpIndex.Add, RtpIndex.Seen, Base.Spend, Transform.Transform.RtpUnprotected, Base.Valid,
           Stream.GetMki;
      StepValid(base.cs, View(), UnprotectRtp(h, cipher));
      var index := base.rtpIndex.EstimateIndex(h.seqNum);
      var seen := base.rtpIndex.SeenIndex(index);
      if seen {
        return Err(InvalidPacketIndex);
      }
      var found := GetMki(cipher, h.len, true);
      if found.Err? {
        return Err(found.error);
      }
      var mki := found.value;
      var limit := base.CheckKeyLimit(true, mki);
      if limit.Err? {
        return Err(limit.error);
      }
      var t := base.transforms[mki].transform;
      EntryValid(base.View(), mki);
      var plain := Transform.RtpUnprotect(base.cs, t, cipher, h, index / 0x1_0000 % 0x1_0000_0000);
      if plain.Err? {
        return plain;
      }
      base.Decrease(true, mki);
      base.rtpIndex.AddIndex(index);
      r := plain;
    }

    method RtcpUnprotect(h: RtcpHeader, cipher: Bytes) returns (r: Result<Bytes>)
      requires Valid()
      modifies Repr()
      ensures Valid() && (View(), r) == ReceiveRtcp(base.cs, old(View()), h, cipher)
    {
      hide RtcpIndex.Add, RtcpIndex.Seen, Base.Spend, Transform.Transform.RtcpUnprotected, Base.Valid, Stream.GetMki,
           Transform.Transform.Valid, U32At;
      var trailerLen := 4 + rtcpTagLen + base.mkiLen;
      if |cipher| < RTCP_HEADER_SIZE + trailerLen {
        return Err(InvalidPacket);
      }
      var index := U32At(cipher, |cipher| - trailerLen) % 0x8000_0000;
      var seen := rtcpIndex.SeenIndex(index);
      if seen {
        return Err(InvalidPacketIndex);
      }
      var found := GetMki(cipher, RTCP_HEADER_SIZE, false);
      if found.Err? {
        return Err(found.error);
      }
      var mki := found.value;
      var limit := base.CheckKeyLimit(false, mki);
      if limit.Err? {
        return Err(limit.error);
      }
      var t := base.transforms[mki].transform;
      EntryValid(base.View(), mki);
      var plain := Transform.RtcpUnprotect(base.cs, t, cipher, h, index, trailerLen);
      if plain.Err? {
        return plain;
      }
      base.Decrease(false, mki);
      rtcpIndex.AddIndex(index);
      r := plain;
    }
  }

  method NewSendStream(cs: Suite, ssrc: u32, config: StreamConfig) returns (r: Result<SendStream>)
    requires config.Valid() && SaltsFit(config)
    ensures r.Err? ==> NewStream(cs, Sender, ssrc, config) == Err(r.error)
    ensures r.Ok? ==>
              && r.value.Valid() && fresh(r.value.Repr()) && r.value.base.cs == cs
              && NewStream(cs, Sender, ssrc, config) == Ok(r.value.View())
  {
    hide StreamConfig.Valid;
    var transforms := GetTransforms(cs, config);
    if transforms.Err? {
      return Err(transforms.error);
    }
    var s := new SendStream(cs, ssrc, config, transforms.value);
    r := Ok(s);
  }

  method NewRecvStream(cs: Suite, ssrc: u32, config: StreamConfig) returns (r: Result<RecvStream>)
    requires config.Valid() && SaltsFit(config)
    ensures r.Err? ==> NewStream(cs, Receiver, ssrc, config) == Err(r.error)
    ensures r.Ok? ==>
              && r.value.Valid() && fresh(r.value.Repr()) && r.value.base.cs == cs
              && NewStream(cs, Receiver, ssrc, config) == Ok(r.value.View())
  {
    hide StreamConfig.Valid;
    var transforms := GetTransforms(cs, config);
    if transforms.Err? {
      return Err(transforms.error);
    }
    var s := new RecvStream(cs, ssrc, config, transforms.value);
    r := Ok(s);
  }
}
