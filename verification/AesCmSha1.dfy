/** Counter mode (or the null cipher) with an HMAC-SHA1 tag: packet layout, protection and its inverse. */
module AesCmSha1 {
  import opened Types
  import opened Octets
  import opened Crypto
  import opened Profile
  import opened Header
  import opened InitVector
  import opened Trailer

  datatype SessionKeys = SessionKeys(key: Option<Bytes>, salt: Option<Salt14>, authKey: Option<Bytes>) {
    /** The keys a profile uses are there, and the cipher key has the size the profile's cipher takes. */
    predicate Fit(profile: ProtectionProfile) {
      && (profile.KeyLen() > 0 ==> key.Some? && |key.value| == profile.KeyLen() && salt.Some?)
      && (profile.TagLen() > 0 ==> authKey.Some?)
    }

    /** Each key that is there was derived from the master key under its own label. */
    predicate DerivedFrom(
      cs: Suite, masterKey: Bytes, masterSalt: Bytes, encrypt: KdfLabel, saltLabel: KdfLabel, auth: KdfLabel)
      requires |masterSalt| <= 16
    {
      && (key.Some? ==> AesCmKdf(cs, encrypt, masterKey, masterSalt) == Ok(key.value))
      && (salt.Some? ==> AesCmKdf(cs, saltLabel, masterKey, masterSalt) == Ok(salt.value))
      && (authKey.Some? ==> AesCmKdf(cs, auth, masterKey, masterSalt) == Ok(authKey.value))
    }
  }

  datatype CmTransform = CmTransform(
    rtpProfile: ProtectionProfile, rtcpProfile: ProtectionProfile,
    rtpKeys: SessionKeys, rtcpKeys: SessionKeys, mki: Mki)
  {
    predicate Valid() {
      && !rtpProfile.IsGcm() && rtpKeys.Fit(rtpProfile)
      && !rtcpProfile.IsGcm() && rtcpProfile.TagLen() == 10 && rtcpKeys.Fit(rtcpProfile)
    }

    /** The vector that the payload of an SRTP packet with this header and ROC is encrypted under. */
    function RtpIv(h: RtpHeader, roc: u32): (iv: Bytes)
      requires rtpKeys.salt.Some?
      ensures |iv| == 16
    {
      CmIv(rtpKeys.salt.value, h.ssrc, roc * 0x1_0000 + h.seqNum)
    }

    function RtcpIv(h: RtcpHeader, index: u31): (iv: Bytes)
      requires rtcpKeys.salt.Some?
      ensures |iv| == 16
    {
      CmIv(rtcpKeys.salt.value, h.ssrc, index)
    }

    /** RFC 3711, section 4.1: the payload is XORed with the keystream, the header stays clear. */
    function RtpCrypt(cs: Suite, packet: Bytes, h: RtpHeader, roc: u32): (r: Bytes)
      requires Valid() && h.len <= |packet|
      ensures |r| == |packet|
    {
      if rtpProfile.KeyLen() == 0 then packet
      else
        var stream := Keystream(cs, rtpKeys.key.value, RtpIv(h, roc), |packet| - h.len);
        packet[..h.len] + XorBytes(packet[h.len..], stream)
    }

    function RtcpCrypt(cs: Suite, packet: Bytes, h: RtcpHeader, index: u31): (r: Bytes)
      requires Valid() && RTCP_HEADER_SIZE <= |packet|
      ensures |r| == |packet|
    {
      if rtcpProfile.KeyLen() == 0 then packet
      else
        var stream := Keystream(cs, rtcpKeys.key.value, RtcpIv(h, index), |packet| - RTCP_HEADER_SIZE);
        packet[..RTCP_HEADER_SIZE] + XorBytes(packet[RTCP_HEADER_SIZE..], stream)
    }

    /** RFC 3711, section 4.2: the left-most bytes of the HMAC over the authenticated portion and the ROC. */
    function RtpTag(cs: Suite, body: Bytes, roc: u32): (tag: Bytes)
      requires Valid()
      ensures |tag| == rtpProfile.TagLen()
    {
      if rtpProfile.TagLen() == 0 then []
      else cs.hmac(rtpKeys.authKey.value, body + ToBytes(roc, 4))[..rtpProfile.TagLen()]
    }

    function RtcpTag(cs: Suite, body: Bytes): (tag: Bytes)
      requires Valid()
      ensures |tag| == rtcpProfile.TagLen()
    {
      cs.hmac(rtcpKeys.authKey.value, body)[..rtcpProfile.TagLen()]
    }

    /** The SRTP packet of RFC 3711, section 3.1. */
    function SrtpPacket(cs: Suite, plain: Bytes, h: RtpHeader, roc: u32): Bytes
      requires Valid() && h.len <= |plain|
    {
      var body := RtpCrypt(cs, plain, h, roc);
      body + MkiBytes(mki) + RtpTag(cs, body, roc)
    }

    /** The SRTCP packet of RFC 3711, section 3.4, with the E flag as given. */
    function SrtcpPacket(cs: Suite, plain: Bytes, h: RtcpHeader, index: u31, encrypted: bool): Bytes
      requires Valid() && RTCP_HEADER_SIZE <= |plain|
    {
      var body := RtcpCrypt(cs, plain, h, index) + EsrtcpWord(encrypted, index);
      body + MkiBytes(mki) + RtcpTag(cs, body)
    }

    function RtpUnprotected(cs: Suite, packet: Bytes, h: RtpHeader, roc: u32): Result<Bytes>
      requires Valid()
    {
      var tagLen := rtpProfile.TagLen();
      var trailerLen := tagLen + |MkiBytes(mki)|;
      if |packet| < h.len + trailerLen then Err(InvalidPacket)
      else
        var body := packet[..|packet| - trailerLen];
        if packet[|packet| - tagLen..] != RtpTag(cs, body, roc) then Err(Authentication)
        else Ok(RtpCrypt(cs, body, h, roc))
    }

    function RtcpUnprotected(cs: Suite, packet: Bytes, h: RtcpHeader, index: u31, trailerLen: nat): Result<Bytes>
      requires Valid() && trailerLen >= 4 && |packet| >= RTCP_HEADER_SIZE + trailerLen
    {
      if packet[|packet| - rtcpProfile.TagLen()..] != RtcpTag(cs, packet[..|packet| - trailerLen + 4])
      then Err(Authentication)
      else Ok(RtcpCrypt(cs, packet[..|packet| - trailerLen], h, index))
    }
  }

  // ---- construction ----

  function DeriveKeys(
    cs: Suite, profile: ProtectionProfile, masterKey: Bytes, masterSalt: Bytes,
    encrypt: KdfLabel, salt: KdfLabel, auth: KdfLabel): (r: Result<SessionKeys>)
    requires |masterSalt| <= 16
    requires encrypt.OutputSize(|masterKey|) == |masterKey|
    requires salt.OutputSize(|masterKey|) == 14 && auth.OutputSize(|masterKey|) == 20
    ensures r.Ok? <==> |masterKey| in {16, 24, 32}
    ensures r.Err? ==> r.error == InvalidKeySize
    ensures r.Ok? ==> r.value.DerivedFrom(cs, masterKey, masterSalt, encrypt, salt, auth)
    ensures r.Ok? && profile.TakesKey(|masterKey|) ==> r.value.Fit(profile)
  {
    if |masterKey| !in {16, 24, 32} then Err(InvalidKeySize)
    else
      var key := AesCmKdf(cs, encrypt, masterKey, masterSalt).value;
      var sessionSalt := AesCmKdf(cs, salt, masterKey, masterSalt).value;
      var authKey := AesCmKdf(cs, auth, masterKey, masterSalt).value;
      Ok(if profile.KeyLen() == 0 then SessionKeys(None, None, Some(authKey))
         else SessionKeys(Some(key), Some(sessionSalt), if profile.TagLen() > 0 then Some(authKey) else None))
  }

  function NewCm(
    cs: Suite, masterKey: Bytes, masterSalt: Bytes, mki: Mki,
    rtpProfile: ProtectionProfile, rtcpProfile: ProtectionProfile): (r: Result<CmTransform>)
    requires |masterSalt| <= 16
    ensures r.Ok? <==> !rtpProfile.IsGcm() && !rtcpProfile.IsGcm() && rtcpProfile.TagLen() == 10
                       && |masterKey| in {16, 24, 32}
    ensures r.Err? ==>
              r.error == if rtpProfile.IsGcm() then TransformDispatch
                         else if |masterKey| !in {16, 24, 32} then InvalidKeySize
                         else if rtcpProfile.IsGcm() then TransformDispatch
                         else InvalidProfile
    ensures r.Ok? ==> r.value.mki == mki && r.value.rtpProfile == rtpProfile && r.value.rtcpProfile == rtcpProfile
    ensures r.Ok? ==>
              && r.value.rtpKeys.DerivedFrom(cs, masterKey, masterSalt,
                                             KdfLabel.RtpEncrypt, KdfLabel.RtpSalt, KdfLabel.RtpAuthTag)
              && r.value.rtcpKeys.DerivedFrom(cs, masterKey, masterSalt,
                                              KdfLabel.RtcpEncrypt, KdfLabel.RtcpSalt, KdfLabel.RtcpAuthTag)
    ensures r.Ok? && rtpProfile.TakesKey(|masterKey|) && rtcpProfile.TakesKey(|masterKey|) ==> r.value.Valid()
  {
    if rtpProfile.IsGcm() then Err(TransformDispatch)
    else
      var rtpKeys :- DeriveKeys(cs, rtpProfile, masterKey, masterSalt,
          KdfLabel.RtpEncrypt, KdfLabel.RtpSalt, KdfLabel.RtpAuthTag);
      if rtcpProfile.IsGcm() then Err(TransformDispatch)
      else if rtcpProfile.TagLen() < 10 then Err(InvalidProfile)
      else
        var rtcpKeys := DeriveKeys(cs, rtcpProfile, masterKey, masterSalt,
          KdfLabel.RtcpEncrypt, KdfLabel.RtcpSalt, KdfLabel.RtcpAuthTag).value;
        Ok(CmTransform(rtpProfile, rtcpProfile, rtpKeys, rtcpKeys, mki))
  }

  // ---- the operations, on a packet that is encrypted, extended and truncated ----

  method RtpEncrypt(cs: Suite, t: CmTransform, rtpPacket: Bytes, h: RtpHeader, roc: u32) returns (packet: Bytes)
    requires t.Valid() && h.len <= |rtpPacket| && t.rtpProfile.KeyLen() > 0
    ensures packet == t.RtpCrypt(cs, rtpPacket, h, roc)
  {
    hide CmIv, Keystream, ToBytes;
    packet := rtpPacket;
    var iv := CmRtpIv(t.rtpKeys.salt.value, h.ssrc, roc, h.seqNum);
    var stream := Keystream(cs, t.rtpKeys.key.value, iv, |packet| - h.len);
    packet := packet[..h.len] + XorBytes(packet[h.len..], stream);
  }

  method RtcpEncrypt(cs: Suite, t: CmTransform, rtcpPacket: Bytes, h: RtcpHeader, index: u31) returns (packet: Bytes)
    requires t.Valid() && RTCP_HEADER_SIZE <= |rtcpPacket| && t.rtcpProfile.KeyLen() > 0
    ensures packet == t.RtcpCrypt(cs, rtcpPacket, h, index)
  {
    hide CmIv, Keystream, ToBytes;
    packet := rtcpPacket;
    var iv := CmRtcpIv(t.rtcpKeys.salt.value, h.ssrc, index);
    var stream := Keystream(cs, t.rtcpKeys.key.value, iv, |packet| - RTCP_HEADER_SIZE);
    packet := packet[..RTCP_HEADER_SIZE] + XorBytes(packet[RTCP_HEADER_SIZE..], stream);
  }

  method RtpProtect(cs: Suite, t: CmTransform, plain: Bytes, h: RtpHeader, roc: u32) returns (packet: Bytes)
    requires t.Valid() && h.len <= |plain|
    ensures packet == t.SrtpPacket(cs, plain, h, roc)
  {
    hide CmIv, Keystream, ToBytes;
    packet := plain;
    if t.rtpProfile.KeyLen() > 0 {
      packet := RtpEncrypt(cs, t, packet, h, roc);
    }
    ghost var body := packet;
    var mkiLen := 0;
    if t.mki.Some? {
      packet := packet + t.mki.value;
      mkiLen := |t.mki.value|;
    }
    assert packet[..|packet| - mkiLen] == body;
    assert packet == body + MkiBytes(t.mki);
    if t.rtpProfile.TagLen() > 0 {
      packet := packet + t.RtpTag(cs, packet[..|packet| - mkiLen], roc);
    }
  }

  method RtcpProtect(cs: Suite, t: CmTransform, plain: Bytes, h: RtcpHeader, index: u31) returns (packet: Bytes)
    requires t.Valid() && RTCP_HEADER_SIZE <= |plain|
    ensures packet == t.SrtcpPacket(cs, plain, h, index, t.rtcpProfile.KeyLen() > 0)
  {
    hide CmIv, Keystream, ToBytes;
    packet := plain;
    if t.rtcpProfile.KeyLen() > 0 {
      packet := RtcpEncrypt(cs, t, packet, h, index);
      packet := packet + EsrtcpWord(true, index);
    } else {
      packet := packet + EsrtcpWord(false, index);
    }
    ghost var body := packet;
    var mkiLen := 0;
    if t.mki.Some? {
      packet := packet + t.mki.value;
      mkiLen := |t.mki.value|;
    }
    assert packet[..|packet| - mkiLen] == body;
    assert packet == body + MkiBytes(t.mki);
    packet := packet + t.RtcpTag(cs, packet[..|packet| - mkiLen]);
  }

  method RtpUnprotect(cs: Suite, t: CmTransform, cipher: Bytes, h: RtpHeader, roc: u32) returns (r: Result<Bytes>)
    requires t.Valid()
    ensures r == t.RtpUnprotected(cs, cipher, h, roc)
  {
    hide CmIv, Keystream, ToBytes;
    var packet := cipher;
    var trailerLen := t.rtpProfile.TagLen();
    if t.mki.Some? {
      trailerLen := trailerLen + |t.mki.value|;
    }
    if |packet| < h.len + trailerLen {
      return Err(InvalidPacket);
    }
    if t.rtpProfile.TagLen() > 0 {
      var tag := t.RtpTag(cs, packet[..|packet| - trailerLen], roc);
      if packet[|packet| - t.rtpProfile.TagLen()..] != tag {
        return Err(Authentication);
      }
    }
    packet := packet[..|packet| - trailerLen];
    if t.rtpProfile.KeyLen() > 0 {
      packet := RtpEncrypt(cs, t, packet, h, roc);
    }
    r := Ok(packet);
  }

  method RtcpUnprotect(cs: Suite, t: CmTransform, cipher: Bytes, h: RtcpHeader, index: u31, trailerLen: nat)
    returns (r: Result<Bytes>)
    requires t.Valid() && trailerLen >= 4 && |cipher| >= RTCP_HEADER_SIZE + trailerLen
    ensures r == t.RtcpUnprotected(cs, cipher, h, index, trailerLen)
  {
    hide CmIv, Keystream, ToBytes;
    var packet := cipher;
    var tag := t.RtcpTag(cs, packet[..|packet| - trailerLen + 4]);
    if packet[|packet| - t.rtcpProfile.TagLen()..] != tag {
      return Err(Authentication);
    }
    packet := packet[..|packet| - trailerLen];
    if t.rtcpProfile.KeyLen() > 0 {
      packet := RtcpEncrypt(cs, t, packet, h, index);
    }
    r := Ok(packet);
  }

  // ---- unprotecting is the inverse of protecting ----

  lemma XorTailTwice(packet: Bytes, n: nat, stream: Bytes)
    requires n + |stream| == |packet|
    ensures var c := packet[..n] + XorBytes(packet[n..], stream);
            c[..n] == packet[..n] && c[..n] + XorBytes(c[n..], stream) == packet
  {
    var c := packet[..n] + XorBytes(packet[n..], stream);
    XorBytesCancel(packet[n..], stream);
    assert c[..n] == packet[..n] && c[n..] == XorBytes(packet[n..], stream);
    assert packet == packet[..n] + packet[n..];
  }

  lemma RtpCryptInvolutive(cs: Suite, t: CmTransform, packet: Bytes, h: RtpHeader, roc: u32)
    requires t.Valid() && h.len <= |packet|
    ensures t.RtpCrypt(cs, t.RtpCrypt(cs, packet, h, roc), h, roc) == packet
    ensures t.RtpCrypt(cs, packet, h, roc)[..h.len] == packet[..h.len]
  {
    hide CmTransform.RtpIv, Keystream, XorBytes;
    if t.rtpProfile.KeyLen() > 0 {
      XorTailTwice(packet, h.len, Keystream(cs, t.rtpKeys.key.value, t.RtpIv(h, roc), |packet| - h.len));
    }
  }

  lemma RtcpCryptInvolutive(cs: Suite, t: CmTransform, packet: Bytes, h: RtcpHeader, index: u31)
    requires t.Valid() && RTCP_HEADER_SIZE <= |packet|
    ensures t.RtcpCrypt(cs, t.RtcpCrypt(cs, packet, h, index), h, index) == packet
    ensures t.RtcpCrypt(cs, packet, h, index)[..RTCP_HEADER_SIZE] == packet[..RTCP_HEADER_SIZE]
  {
    hide CmTransform.RtcpIv, Keystream, XorBytes;
    if t.rtcpProfile.KeyLen() > 0 {
      var n := RTCP_HEADER_SIZE;
      XorTailTwice(packet, n, Keystream(cs, t.rtcpKeys.key.value, t.RtcpIv(h, index), |packet| - n));
    }
  }

  /**
   With the right MKI in the trailer, a packet is accepted and yields `plain` if and only if it is
   the SRTP packet of `plain`.
   */
  lemma RtpInverse(cs: Suite, t: CmTransform, plain: Bytes, packet: Bytes, h: RtpHeader, roc: u32)
    requires t.Valid() && h.len <= |plain|
    requires |packet| == |plain| + |MkiBytes(t.mki)| + t.rtpProfile.TagLen()
    requires packet[|plain|..|plain| + |MkiBytes(t.mki)|] == MkiBytes(t.mki)
    ensures t.RtpUnprotected(cs, packet, h, roc) == Ok(plain) <==> packet == t.SrtpPacket(cs, plain, h, roc)
  {
    hide CmTransform.RtpCrypt, CmTransform.RtpTag;
    var body := packet[..|plain|];
    RtpCryptInvolutive(cs, t, plain, h, roc);
    RtpCryptInvolutive(cs, t, body, h, roc);
    ThreeParts(packet, body, MkiBytes(t.mki), t.RtpTag(cs, body, roc));
    var sealed := t.RtpCrypt(cs, plain, h, roc);
    ThreeParts(packet, sealed, MkiBytes(t.mki), t.RtpTag(cs, sealed, roc));
  }

  /** The same for SRTCP, where the receiver takes either value of the E flag. */
  lemma RtcpInverse(cs: Suite, t: CmTransform, plain: Bytes, packet: Bytes, h: RtcpHeader, index: u31, encrypted: bool)
    requires t.Valid() && RTCP_HEADER_SIZE <= |plain|
    requires |packet| == |plain| + 4 + |MkiBytes(t.mki)| + t.rtcpProfile.TagLen()
    requires packet[|plain|..|plain| + 4] == EsrtcpWord(encrypted, index)
    requires packet[|plain| + 4..|plain| + 4 + |MkiBytes(t.mki)|] == MkiBytes(t.mki)
    ensures var trailerLen := 4 + t.rtcpProfile.TagLen() + |MkiBytes(t.mki)|;
            t.RtcpUnprotected(cs, packet, h, index, trailerLen) == Ok(plain)
            <==> packet == t.SrtcpPacket(cs, plain, h, index, encrypted)
  {
    hide CmTransform.RtcpCrypt, CmTransform.RtcpTag, EsrtcpWord;
    var n, word := |plain|, EsrtcpWord(encrypted, index);
    var cut, body := packet[..n], packet[..n + 4];
    var sealed := t.RtcpCrypt(cs, plain, h, index);
    RtcpCryptInvolutive(cs, t, plain, h, index);
    RtcpCryptInvolutive(cs, t, cut, h, index);
    assert body[..n] == cut && body[n..] == word;
    TwoParts(body, cut, word);
    TwoParts(body, sealed, word);
    ThreeParts(packet, body, MkiBytes(t.mki), t.RtcpTag(cs, body));
    ThreeParts(packet, sealed + word, MkiBytes(t.mki), t.RtcpTag(cs, sealed + word));
  }
}
