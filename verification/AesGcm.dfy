/** AES-GCM (RFC 7714): packet layout, protection and its inverse. */
module AesGcm {
  import opened Types
  import opened Octets
  import opened Crypto
  import opened Profile
  import opened Header
  import opened InitVector
  import opened Trailer

  datatype GcmKeys = GcmKeys(key: Bytes, salt: Salt12) {
    /** Key and salt were derived from the master key under these labels, the salt cut to 12 bytes. */
    predicate DerivedFrom(cs: Suite, masterKey: Bytes, masterSalt: Bytes, encrypt: KdfLabel, saltLabel: KdfLabel)
      requires |masterSalt| <= 16
    {
      var sessionSalt := AesCmKdf(cs, saltLabel, masterKey, masterSalt);
      && AesCmKdf(cs, encrypt, masterKey, masterSalt) == Ok(key)
      && sessionSalt.Ok? && salt <= sessionSalt.value
    }
  }

  datatype GcmTransform = GcmTransform(
    rtpProfile: ProtectionProfile, rtcpProfile: ProtectionProfile,
    rtpKeys: GcmKeys, rtcpKeys: GcmKeys, mki: Mki)
  {
    /** `RtcpDecrypt` picks its cipher by the RTP profile, so the two profiles must be the same. */
    predicate Valid() {
      && rtpProfile.IsGcm() && rtcpProfile == rtpProfile
      && |rtpKeys.key| == |rtcpKeys.key| == rtpProfile.KeyLen()
    }

    /** The nonce that an SRTP packet with this header and ROC is sealed under. */
    function RtpIv(h: RtpHeader, roc: u32): (iv: Bytes)
      ensures |iv| == 12
    {
      GcmIv(rtpKeys.salt, h.ssrc, roc * 0x1_0000 + h.seqNum)
    }

    function RtcpIv(h: RtcpHeader, index: u31): (iv: Bytes)
      ensures |iv| == 12
    {
      GcmIv(rtcpKeys.salt, h.ssrc, index)
    }

    /** The SRTP packet of RFC 7714, section 8: clear header, ciphertext, tag, MKI. */
    function SrtpPacket(cs: Suite, plain: Bytes, h: RtpHeader, roc: u32): Result<Bytes>
      requires h.len <= |plain|
    {
      match cs.seal(rtpKeys.key, RtpIv(h, roc), plain[..h.len], plain[h.len..])
      case None => Err(Encryption)
      case Some((text, tag)) => Ok(plain[..h.len] + text + tag + MkiBytes(mki))
    }

    /** The SRTCP packet of RFC 7714, section 9; the authenticated word always has the E flag. */
    function SrtcpPacket(cs: Suite, plain: Bytes, h: RtcpHeader, index: u31, encrypted: bool): Result<Bytes>
      requires RTCP_HEADER_SIZE <= |plain|
    {
      var ad := plain[..RTCP_HEADER_SIZE] + EsrtcpWord(true, index);
      match cs.seal(rtcpKeys.key, RtcpIv(h, index), ad, plain[RTCP_HEADER_SIZE..])
      case None => Err(Encryption)
      case Some((text, tag)) =>
        Ok(plain[..RTCP_HEADER_SIZE] + text + tag + EsrtcpWord(encrypted, index) + MkiBytes(mki))
    }

    function RtpUnprotected(cs: Suite, packet: Bytes, h: RtpHeader, roc: u32): Result<Bytes> {
      var trailerLen := |MkiBytes(mki)|;
      if |packet| < h.len + trailerLen + GCM_TAG_LEN then Err(InvalidPacket)
      else
        var tagAt := |packet| - trailerLen - GCM_TAG_LEN;
        var (text, tag) := (packet[h.len..tagAt], packet[tagAt..tagAt + GCM_TAG_LEN]);
        match cs.open(rtpKeys.key, RtpIv(h, roc), packet[..h.len], text, tag)
        case None => Err(Authentication)
        case Some(plain) => Ok(packet[..h.len] + plain)
    }

    function RtcpUnprotected(cs: Suite, packet: Bytes, h: RtcpHeader, index: u31, trailerLen: nat): Result<Bytes> {
      if |packet| < RTCP_HEADER_SIZE + trailerLen + GCM_TAG_LEN then Err(InvalidPacket)
      else
        var ad := packet[..RTCP_HEADER_SIZE] + EsrtcpWord(true, index);
        var tagAt := |packet| - trailerLen - GCM_TAG_LEN;
        var (text, tag) := (packet[RTCP_HEADER_SIZE..tagAt], packet[tagAt..tagAt + GCM_TAG_LEN]);
        match cs.open(rtcpKeys.key, RtcpIv(h, index), ad, text, tag)
        case None => Err(Authentication)
        case Some(plain) => Ok(packet[..RTCP_HEADER_SIZE] + plain)
    }
  }

  function DeriveKeys(cs: Suite, masterKey: Bytes, masterSalt: Bytes, encrypt: KdfLabel, salt: KdfLabel)
    : (r: Result<GcmKeys>)
    requires |masterSalt| <= 16
    requires encrypt.OutputSize(|masterKey|) == |masterKey| && salt.OutputSize(|masterKey|) == 14
    ensures r.Ok? <==> |masterKey| in {16, 24, 32}
    ensures r.Err? ==> r.error == InvalidKeySize
    ensures r.Ok? ==> |r.value.key| == |masterKey| && r.value.DerivedFrom(cs, masterKey, masterSalt, encrypt, salt)
  {
    if |masterKey| !in {16, 24, 32} then Err(InvalidKeySize)
    else
      var key := AesCmKdf(cs, encrypt, masterKey, masterSalt).value;
      var sessionSalt := AesCmKdf(cs, salt, masterKey, masterSalt).value;
      Ok(GcmKeys(key, sessionSalt[..12]))
  }

  function NewGcm(
    cs: Suite, masterKey: Bytes, masterSalt: Bytes, mki: Mki,
    rtpProfile: ProtectionProfile, rtcpProfile: ProtectionProfile): (r: Result<GcmTransform>)
    requires |masterSalt| <= 16
    ensures r.Ok? <==> rtpProfile.IsGcm() && rtcpProfile.IsGcm() && |masterKey| in {16, 24, 32}
    ensures r.Err? ==>
              r.error == if rtpProfile.IsGcm() && |masterKey| !in {16, 24, 32} then InvalidKeySize
                         else TransformDispatch
    ensures r.Ok? ==> r.value.mki == mki && r.value.rtpProfile == rtpProfile && r.value.rtcpProfile == rtcpProfile
    ensures r.Ok? ==>
              && r.value.rtpKeys.DerivedFrom(cs, masterKey, masterSalt, KdfLabel.RtpEncrypt, KdfLabel.RtpSalt)
              && r.value.rtcpKeys.DerivedFrom(cs, masterKey, masterSalt, KdfLabel.RtcpEncrypt, KdfLabel.RtcpSalt)
    ensures r.Ok? && rtpProfile.TakesKey(|masterKey|) && rtcpProfile.TakesKey(|masterKey|) ==> r.value.Valid()
  {
    if !rtpProfile.IsGcm() then Err(TransformDispatch)
    else
      var rtpKeys :- DeriveKeys(cs, masterKey, masterSalt, KdfLabel.RtpEncrypt, KdfLabel.RtpSalt);
      if !rtcpProfile.IsGcm() then Err(TransformDispatch)
      else
        var rtcpKeys := DeriveKeys(cs, masterKey, masterSalt, KdfLabel.RtcpEncrypt, KdfLabel.RtcpSalt).value;
        Ok(GcmTransform(rtpProfile, rtcpProfile, rtpKeys, rtcpKeys, mki))
  }

  // ---- the operations ----

  method RtpProtect(cs: Suite, t: GcmTransform, plain: Bytes, h: RtpHeader, roc: u32) returns (r: Result<Bytes>)
    requires t.Valid() && h.len <= |plain|
    ensures r == t.SrtpPacket(cs, plain, h, roc)
  {
    hide GcmIv;
    var packet := plain;
    var iv := GcmRtpIv(t.rtpKeys.salt, h.ssrc, roc, h.seqNum);
    var ad, payload := packet[..h.len], packet[h.len..];
    var sealed: Option<(Bytes, Bytes)> := cs.seal(t.rtpKeys.key, iv, ad, payload);
    if sealed.None? {
      return Err(Encryption);
    }
    packet := ad + sealed.value.0;
    packet := packet + sealed.value.1;
    assert packet == packet + [];
    if t.mki.Some? {
      packet := packet + t.mki.value;
    }
    r := Ok(packet);
  }

  method RtcpProtect(cs: Suite, t: GcmTransform, plain: Bytes, h: RtcpHeader, index: u31) returns (r: Result<Bytes>)
    requires t.Valid() && RTCP_HEADER_SIZE <= |plain|
    ensures r == t.SrtcpPacket(cs, plain, h, index, true)
  {
    hide GcmIv, EsrtcpWord;
    var packet := plain;
    var esrtcp := EsrtcpWord(true, index);
    var iv := GcmRtcpIv(t.rtcpKeys.salt, h.ssrc, index);
    var head, payload := packet[..RTCP_HEADER_SIZE], packet[RTCP_HEADER_SIZE..];
    var sealed: Option<(Bytes, Bytes)> := cs.seal(t.rtcpKeys.key, iv, head + esrtcp, payload);
    if sealed.None? {
      return Err(Encryption);
    }
    packet := head + sealed.value.0;
    packet := packet + sealed.value.1;
    packet := packet + esrtcp;
    assert packet == packet + [];
    if t.mki.Some? {
      packet := packet + t.mki.value;
    }
    r := Ok(packet);
  }

  /** Cutting off the trailer and then splitting the rest in three, or all at once. */
  lemma Slices(cipher: Bytes, trailerLen: nat, n: nat)
    requires n + trailerLen + GCM_TAG_LEN <= |cipher|
    ensures var packet := cipher[..|cipher| - trailerLen];
            var tagAt := |packet| - GCM_TAG_LEN;
            && packet[..n] == cipher[..n]
            && packet[n..][..|packet| - n - GCM_TAG_LEN] == cipher[n..tagAt]
            && packet[n..][|packet| - n - GCM_TAG_LEN..] == cipher[tagAt..tagAt + GCM_TAG_LEN]
  {
  }

  method RtpUnprotect(cs: Suite, t: GcmTransform, cipher: Bytes, h: RtpHeader, roc: u32) returns (r: Result<Bytes>)
    requires t.Valid()
    ensures r == t.RtpUnprotected(cs, cipher, h, roc)
  {
    hide GcmIv, ToBytes;
    var packet := cipher;
    var trailerLen := 0;
    if t.mki.Some? {
      trailerLen := trailerLen + |t.mki.value|;
    }
    if |packet| < h.len + trailerLen + GCM_TAG_LEN {
      return Err(InvalidPacket);
    }
    packet := packet[..|packet| - trailerLen];
    var iv := GcmRtpIv(t.rtpKeys.salt, h.ssrc, roc, h.seqNum);
    var ad, payloadTag := packet[..h.len], packet[h.len..];
    var payload, tag := payloadTag[..|payloadTag| - GCM_TAG_LEN], payloadTag[|payloadTag| - GCM_TAG_LEN..];
    Slices(cipher, trailerLen, h.len);
    var text: Option<Bytes> := cs.open(t.rtpKeys.key, iv, ad, payload, tag);
    match text
    case None => r := Err(Authentication);
    case Some(plain) => r := Ok(ad + plain);
  }

  method RtcpUnprotect(cs: Suite, t: GcmTransform, cipher: Bytes, h: RtcpHeader, index: u31, trailerLen: nat)
    returns (r: Result<Bytes>)
    requires t.Valid()
    ensures r == t.RtcpUnprotected(cs, cipher, h, index, trailerLen)
  {
    hide GcmIv, EsrtcpWord;
    var packet := cipher;
    if |packet| < RTCP_HEADER_SIZE + trailerLen + GCM_TAG_LEN {
      return Err(InvalidPacket);
    }
    packet := packet[..|packet| - trailerLen];
    var iv := GcmRtcpIv(t.rtcpKeys.salt, h.ssrc, index);
    var head, payloadTag := packet[..RTCP_HEADER_SIZE], packet[RTCP_HEADER_SIZE..];
    var payload, tag := payloadTag[..|payloadTag| - GCM_TAG_LEN], payloadTag[|payloadTag| - GCM_TAG_LEN..];
    Slices(cipher, trailerLen, RTCP_HEADER_SIZE);
    var text: Option<Bytes> := cs.open(t.rtcpKeys.key, iv, head + EsrtcpWord(true, index), payload, tag);
    match text
    case None => r := Err(Authentication);
    case Some(plain) => r := Ok(head + plain);
  }

  // ---- unprotecting is the inverse of protecting ----

  lemma RtpSealed(cs: Suite, t: GcmTransform, plain: Bytes, packet: Bytes, h: RtpHeader, roc: u32)
    requires h.len <= |plain| && t.SrtpPacket(cs, plain, h, roc) == Ok(packet)
    ensures t.RtpUnprotected(cs, packet, h, roc) == Ok(plain)
  {
    hide GcmTransform.RtpIv, GcmTransform.RtcpIv, MkiBytes;
    var iv := t.RtpIv(h, roc);
    var (c, g) := cs.seal(t.rtpKeys.key, iv, plain[..h.len], plain[h.len..]).value;
    FourParts(packet, plain[..h.len], c, g, MkiBytes(t.mki));
    TwoParts(plain, plain[..h.len], plain[h.len..]);
  }

  lemma RtpOpened(cs: Suite, t: GcmTransform, plain: Bytes, packet: Bytes, h: RtpHeader, roc: u32)
    requires h.len <= |plain|
    requires |packet| == |plain| + GCM_TAG_LEN + |MkiBytes(t.mki)|
    requires packet[|plain| + GCM_TAG_LEN..] == MkiBytes(t.mki)
    requires t.RtpUnprotected(cs, packet, h, roc) == Ok(plain)
    ensures t.SrtpPacket(cs, plain, h, roc) == Ok(packet)
  {
    hide GcmTransform.RtpIv, GcmTransform.RtcpIv, MkiBytes;
    var n, m := h.len, |plain|;
    var head, text, tag := packet[..n], packet[n..m], packet[m..m + GCM_TAG_LEN];
    var iv := t.RtpIv(h, roc);
    FourParts(packet, head, text, tag, MkiBytes(t.mki));
    TwoParts(plain, head, cs.open(t.rtpKeys.key, iv, head, text, tag).value);
  }

  /** A packet is accepted and yields `plain` if and only if it is the SRTP packet of `plain`. */
  lemma RtpInverse(cs: Suite, t: GcmTransform, plain: Bytes, packet: Bytes, h: RtpHeader, roc: u32)
    requires h.len <= |plain|
    requires |packet| == |plain| + GCM_TAG_LEN + |MkiBytes(t.mki)|
    requires packet[|plain| + GCM_TAG_LEN..] == MkiBytes(t.mki)
    ensures t.RtpUnprotected(cs, packet, h, roc) == Ok(plain) <==> t.SrtpPacket(cs, plain, h, roc) == Ok(packet)
  {
    hide *;
    if t.RtpUnprotected(cs, packet, h, roc) == Ok(plain) {
      RtpOpened(cs, t, plain, packet, h, roc);
    } else if t.SrtpPacket(cs, plain, h, roc) == Ok(packet) {
      RtpSealed(cs, t, plain, packet, h, roc);
    }
  }

  /** The same for SRTCP, where the receiver takes either value of the E flag. */
  lemma RtcpInverse(cs: Suite, t: GcmTransform, plain: Bytes, packet: Bytes, h: RtcpHeader, index: u31, encrypted: bool)
    requires RTCP_HEADER_SIZE <= |plain|
    requires |packet| == |plain| + GCM_TAG_LEN + 4 + |MkiBytes(t.mki)|
    requires packet[|plain| + GCM_TAG_LEN..|plain| + GCM_TAG_LEN + 4] == EsrtcpWord(encrypted, index)
    requires packet[|plain| + GCM_TAG_LEN + 4..] == MkiBytes(t.mki)
    ensures t.RtcpUnprotected(cs, packet, h, index, 4 + |MkiBytes(t.mki)|) == Ok(plain)
            <==> t.SrtcpPacket(cs, plain, h, index, encrypted) == Ok(packet)
  {
    hide GcmTransform.RtpIv, GcmTransform.RtcpIv, EsrtcpWord;
    var n, m := RTCP_HEADER_SIZE, |plain|;
    var head, text, tag := packet[..n], packet[n..m], packet[m..m + GCM_TAG_LEN];
    var word, tail := EsrtcpWord(encrypted, index), EsrtcpWord(encrypted, index) + MkiBytes(t.mki);
    TwoParts(packet[m + GCM_TAG_LEN..], word, MkiBytes(t.mki));
    FourParts(packet, head, text, tag, tail);
    TwoParts(plain, plain[..n], plain[n..]);
    var iv := t.RtcpIv(h, index);
    if t.RtcpUnprotected(cs, packet, h, index, 4 + |MkiBytes(t.mki)|) == Ok(plain) {
      TwoParts(plain, head, cs.open(t.rtcpKeys.key, iv, head + EsrtcpWord(true, index), text, tag).value);
      Regroup(head + text + tag, word, MkiBytes(t.mki));
    }
    if t.SrtcpPacket(cs, plain, h, index, encrypted) == Ok(packet) {
      var (c, g) := cs.seal(t.rtcpKeys.key, iv, plain[..n] + EsrtcpWord(true, index), plain[n..]).value;
      Regroup(plain[..n] + c + g, word, MkiBytes(t.mki));
      FourParts(packet, plain[..n], c, g, tail);
    }
  }
}
