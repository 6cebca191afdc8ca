/** The two transforms behind one interface. */
module Transform {
  import opened Types
  import opened Octets
  import opened Crypto
  import opened Profile
  import opened Header
  import opened InitVector
  import opened Trailer
  import opened AesCmSha1
  import opened AesGcm

  datatype Transform = Cm(cm: CmTransform) | Gcm(gcm: GcmTransform) {
    predicate Valid() {
      match this
      case Cm(t) => t.Valid()
      case Gcm(t) => t.Valid()
    }

    function Mki(): Mki {
      match this
      case Cm(t) => t.mki
      case Gcm(t) => t.mki
    }

    predicate HasProfiles(rtp: ProtectionProfile, rtcp: ProtectionProfile) {
      match this
      case Cm(t) => t.rtpProfile == rtp && t.rtcpProfile == rtcp
      case Gcm(t) => t.rtpProfile == rtp && t.rtcpProfile == rtcp
    }

    /** All session keys come from this master key, each under its own label of RFC 3711, section 4.3.1. */
    predicate DerivedFrom(cs: Suite, masterKey: Bytes, masterSalt: Bytes)
      requires |masterSalt| <= 16
    {
      match this
      case Cm(t) =>
        && t.rtpKeys.DerivedFrom(cs, masterKey, masterSalt,
                                 KdfLabel.RtpEncrypt, KdfLabel.RtpSalt, KdfLabel.RtpAuthTag)
        && t.rtcpKeys.DerivedFrom(cs, masterKey, masterSalt,
                                  KdfLabel.RtcpEncrypt, KdfLabel.RtcpSalt, KdfLabel.RtcpAuthTag)
      case Gcm(t) =>
        && t.rtpKeys.DerivedFrom(cs, masterKey, masterSalt, KdfLabel.RtpEncrypt, KdfLabel.RtpSalt)
        && t.rtcpKeys.DerivedFrom(cs, masterKey, masterSalt, KdfLabel.RtcpEncrypt, KdfLabel.RtcpSalt)
    }

    function RtpTagLen(): nat {
      match this
      case Cm(t) => t.rtpProfile.TagLen()
      case Gcm(t) => t.rtpProfile.TagLen()
    }

    function RtcpTagLen(): nat {
      match this
      case Cm(t) => t.rtcpProfile.TagLen()
      case Gcm(t) => t.rtcpProfile.TagLen()
    }

    /** What the packet grows by, apart from the MKI and the SRTCP trailer word. */
    function RtpExpansion(): nat {
      if Gcm? then GCM_TAG_LEN else RtpTagLen()
    }

    function RtcpExpansion(): nat {
      if Gcm? then GCM_TAG_LEN else RtcpTagLen()
    }

    function RtcpTrailerLen(): nat {
      4 + RtcpTagLen() + |MkiBytes(Mki())|
    }

    /** Whether the profile encrypts SRTCP, which is what the E flag of the sender says. */
    predicate EncryptsRtcp() {
      match this
      case Cm(t) => t.rtcpProfile.KeyLen() > 0
      case Gcm(_) => true
    }

    predicate EncryptsRtp() {
      match this
      case Cm(t) => t.rtpProfile.KeyLen() > 0
      case Gcm(_) => true
    }

    function RtpSalt(): Bytes
      requires Valid() && EncryptsRtp()
    {
      match this
      case Cm(t) => t.rtpKeys.salt.value
      case Gcm(t) => t.rtpKeys.salt
    }

    function RtcpSalt(): Bytes
      requires Valid() && EncryptsRtcp()
    {
      match this
      case Cm(t) => t.rtcpKeys.salt.value
      case Gcm(t) => t.rtcpKeys.salt
    }

    function RtpIv(h: RtpHeader, roc: u32): (iv: Bytes)
      requires Valid() && EncryptsRtp()
      ensures Cm? ==> |iv| == 16
    {
      match this
      case Cm(t) => t.RtpIv(h, roc)
      case Gcm(t) => t.RtpIv(h, roc)
    }

    function RtcpIv(h: RtcpHeader, index: u31): (iv: Bytes)
      requires Valid() && EncryptsRtcp()
      ensures Cm? ==> |iv| == 16
    {
      match this
      case Cm(t) => t.RtcpIv(h, index)
      case Gcm(t) => t.RtcpIv(h, index)
    }

    /** The payload of this SRTP packet is that of `plain` encrypted under the vector `iv`. */
    ghost predicate RtpEncryptedUnder(cs: Suite, iv: Bytes, plain: Bytes, n: nat, packet: Bytes)
      requires Valid() && EncryptsRtp() && (Cm? ==> |iv| == 16)
    {
      && n <= |plain| <= |packet|
      && match this
         case Cm(t) =>
           CtrEncrypted(cs, t.rtpKeys.key.value, iv, plain[n..], packet[n..|plain|])
         case Gcm(t) =>
           && |plain| + GCM_TAG_LEN <= |packet|
           && cs.seal(t.rtpKeys.key, iv, plain[..n], plain[n..])
              == Some((packet[n..|plain|], packet[|plain|..|plain| + GCM_TAG_LEN]))
    }

    ghost predicate RtcpEncryptedUnder(cs: Suite, iv: Bytes, index: u31, plain: Bytes, packet: Bytes)
      requires Valid() && EncryptsRtcp() && (Cm? ==> |iv| == 16)
    {
      var n := RTCP_HEADER_SIZE;
      && n <= |plain| <= |packet|
      && match this
         case Cm(t) =>
           CtrEncrypted(cs, t.rtcpKeys.key.value, iv, plain[n..], packet[n..|plain|])
         case Gcm(t) =>
           && |plain| + GCM_TAG_LEN <= |packet|
           && cs.seal(t.rtcpKeys.key, iv, plain[..n] + EsrtcpWord(true, index), plain[n..])
              == Some((packet[n..|plain|], packet[|plain|..|plain| + GCM_TAG_LEN]))
    }

    function RtpProtected(cs: Suite, plain: Bytes, h: RtpHeader, roc: u32): Result<Bytes>
      requires Valid() && h.len <= |plain|
    {
      match this
      case Cm(t) => Ok(t.SrtpPacket(cs, plain, h, roc))
      case Gcm(t) => t.SrtpPacket(cs, plain, h, roc)
    }

    function SrtcpPacket(cs: Suite, plain: Bytes, h: RtcpHeader, index: u31, encrypted: bool): Result<Bytes>
      requires Valid() && RTCP_HEADER_SIZE <= |plain|
    {
      match this
      case Cm(t) => Ok(t.SrtcpPacket(cs, plain, h, index, encrypted))
      case Gcm(t) => t.SrtcpPacket(cs, plain, h, index, encrypted)
    }

    function RtcpProtected(cs: Suite, plain: Bytes, h: RtcpHeader, index: u31): Result<Bytes>
      requires Valid() && RTCP_HEADER_SIZE <= |plain|
    {
      SrtcpPacket(cs, plain, h, index, EncryptsRtcp())
    }

    function RtpUnprotected(cs: Suite, packet: Bytes, h: RtpHeader, roc: u32): Result<Bytes>
      requires Valid()
    {
      match this
      case Cm(t) => t.RtpUnprotected(cs, packet, h, roc)
      case Gcm(t) => t.RtpUnprotected(cs, packet, h, roc)
    }

    function RtcpUnprotected(cs: Suite, packet: Bytes, h: RtcpHeader, index: u31, trailerLen: nat): Result<Bytes>
      requires Valid() && trailerLen >= 4 && |packet| >= RTCP_HEADER_SIZE + trailerLen
    {
      match this
      case Cm(t) => t.RtcpUnprotected(cs, packet, h, index, trailerLen)
      case Gcm(t) => t.RtcpUnprotected(cs, packet, h, index, trailerLen)
    }
  }

  method RtpProtect(cs: Suite, t: Transform, plain: Bytes, h: RtpHeader, roc: u32) returns (r: Result<Bytes>)
    requires t.Valid() && h.len <= |plain|
    ensures r == t.RtpProtected(cs, plain, h, roc)
  {
    match t {
      case Cm(c) =>
        var packet := AesCmSha1.RtpProtect(cs, c, plain, h, roc);
        r := Ok(packet);
      case Gcm(g) => r := AesGcm.RtpProtect(cs, g, plain, h, roc);
    }
  }

  method RtcpProtect(cs: Suite, t: Transform, plain: Bytes, h: RtcpHeader, index: u31) returns (r: Result<Bytes>)
    requires t.Valid() && RTCP_HEADER_SIZE <= |plain|
    ensures r == t.RtcpProtected(cs, plain, h, index)
  {
    match t {
      case Cm(c) =>
        var packet := AesCmSha1.RtcpProtect(cs, c, plain, h, index);
        r := Ok(packet);
      case Gcm(g) => r := AesGcm.RtcpProtect(cs, g, plain, h, index);
    }
  }

  method RtpUnprotect(cs: Suite, t: Transform, cipher: Bytes, h: RtpHeader, roc: u32) returns (r: Result<Bytes>)
    requires t.Valid()
    ensures r == t.RtpUnprotected(cs, cipher, h, roc)
  {
    match t {
      case Cm(c) => r := AesCmSha1.RtpUnprotect(cs, c, cipher, h, roc);
      case Gcm(g) => r := AesGcm.RtpUnprotect(cs, g, cipher, h, roc);
    }
  }

  method RtcpUnprotect(cs: Suite, t: Transform, cipher: Bytes, h: RtcpHeader, index: u31, trailerLen: nat)
    returns (r: Result<Bytes>)
    requires t.Valid() && trailerLen >= 4 && |cipher| >= RTCP_HEADER_SIZE + trailerLen
    ensures r == t.RtcpUnprotected(cs, cipher, h, index, trailerLen)
  {
    match t {
      case Cm(c) => r := AesCmSha1.RtcpUnprotect(cs, c, cipher, h, index, trailerLen);
      case Gcm(g) => r := AesGcm.RtcpUnprotect(cs, g, cipher, h, index, trailerLen);
    }
  }

  // ---- layout ----

  lemma ExpansionCoversTag(t: Transform)
    requires t.Valid()
    ensures t.RtpExpansion() >= t.RtpTagLen() && t.RtcpExpansion() >= t.RtcpTagLen()
  {
  }

  lemma RtpLengths(cs: Suite, t: Transform, plain: Bytes, packet: Bytes, h: RtpHeader, roc: u32)
    requires t.Valid() && h.len <= |plain|
    requires t.RtpProtected(cs, plain, h, roc) == Ok(packet)
    ensures |packet| == |plain| + t.RtpExpansion() + |MkiBytes(t.Mki())|
    ensures CarriesMki(packet, t.RtpTagLen(), t.Mki())
    ensures packet[..h.len] == plain[..h.len]
  {
    hide CmTransform.RtpCrypt, CmTransform.RtpTag, GcmTransform.RtpIv, GcmTransform.RtcpIv, MkiBytes, CarriesMki;
    match t {
      case Cm(c) =>
        AesCmSha1.RtpCryptInvolutive(cs, c, plain, h, roc);
        var text := c.RtpCrypt(cs, plain, h, roc);
        LaidOut(packet, text, c.mki, c.RtpTag(cs, text, roc), h.len);
      case Gcm(g) =>
        var iv := g.RtpIv(h, roc);
        var (text, tag) := cs.seal(g.rtpKeys.key, iv, plain[..h.len], plain[h.len..]).value;
        var body := plain[..h.len] + text + tag;
        Regroup(plain[..h.len], text, tag);
        Prefixed(body, plain[..h.len], text + tag, h.len);
        assert packet == body + MkiBytes(g.mki) + [];
        LaidOut(packet, body, g.mki, [], h.len);
    }
  }

  lemma RtpPlainLength(cs: Suite, t: Transform, plain: Bytes, packet: Bytes, h: RtpHeader, roc: u32)
    requires t.Valid()
    requires t.RtpUnprotected(cs, packet, h, roc) == Ok(plain)
    ensures |packet| == |plain| + t.RtpExpansion() + |MkiBytes(t.Mki())| && h.len <= |plain|
  {
    hide CmTransform.RtpCrypt, CmTransform.RtpTag, GcmTransform.RtpIv;
  }

  lemma RtpInverse(cs: Suite, t: Transform, plain: Bytes, packet: Bytes, h: RtpHeader, roc: u32)
    requires t.Valid() && h.len <= |plain|
    requires |packet| == |plain| + t.RtpExpansion() + |MkiBytes(t.Mki())|
    requires CarriesMki(packet, t.RtpTagLen(), t.Mki())
    ensures t.RtpProtected(cs, plain, h, roc) == Ok(packet) <==> t.RtpUnprotected(cs, packet, h, roc) == Ok(plain)
  {
    hide CmTransform.SrtpPacket, GcmTransform.SrtpPacket, CmTransform.RtpUnprotected, GcmTransform.RtpUnprotected;
    match t {
      case Cm(c) =>
        assert |packet| - t.RtpTagLen() - |MkiBytes(t.Mki())| == |plain|;
        AesCmSha1.RtpInverse(cs, c, plain, packet, h, roc);
      case Gcm(g) =>
        assert packet[|packet| - |MkiBytes(t.Mki())|..] == MkiBytes(t.Mki());
        AesGcm.RtpInverse(cs, g, plain, packet, h, roc);
    }
  }

  /**
   The receiver accepts a packet and obtains `plain` if and only if the sender, holding the same
   keys, would have turned `plain` into this very packet.
   */
  lemma RtpExact(cs: Suite, t: Transform, plain: Bytes, packet: Bytes, h: RtpHeader, roc: u32)
    requires t.Valid() && h.len <= |plain|
    ensures t.RtpProtected(cs, plain, h, roc) == Ok(packet) <==>
            t.RtpUnprotected(cs, packet, h, roc) == Ok(plain) && CarriesMki(packet, t.RtpTagLen(), t.Mki())
  {
    hide Transform.RtpProtected, Transform.RtpUnprotected, CarriesMki;
    if t.RtpProtected(cs, plain, h, roc) == Ok(packet) {
      RtpLengths(cs, t, plain, packet, h, roc);
    } else if t.RtpUnprotected(cs, packet, h, roc) == Ok(plain) {
      RtpPlainLength(cs, t, plain, packet, h, roc);
    }
    if |packet| == |plain| + t.RtpExpansion() + |MkiBytes(t.Mki())| && CarriesMki(packet, t.RtpTagLen(), t.Mki()) {
      RtpInverse(cs, t, plain, packet, h, roc);
    }
  }

  /** The SRTCP trailer word, where the receiver looks for it. */
  predicate CarriesWord(packet: Bytes, trailerLen: nat, word: Bytes) {
    && 4 <= trailerLen <= |packet|
    && packet[|packet| - trailerLen..|packet| - trailerLen + 4] == word
  }

  lemma RtcpLengths(
    cs: Suite, t: Transform, plain: Bytes, packet: Bytes, h: RtcpHeader, index: u31, encrypted: bool)
    requires t.Valid() && RTCP_HEADER_SIZE <= |plain|
    requires t.SrtcpPacket(cs, plain, h, index, encrypted) == Ok(packet)
    ensures |packet| == |plain| + t.RtcpExpansion() + 4 + |MkiBytes(t.Mki())|
    ensures CarriesMki(packet, t.RtcpTagLen(), t.Mki())
    ensures CarriesWord(packet, t.RtcpTrailerLen(), EsrtcpWord(encrypted, index))
    ensures packet[..RTCP_HEADER_SIZE] == plain[..RTCP_HEADER_SIZE]
  {
    hide CmTransform.RtcpCrypt, CmTransform.RtcpTag, GcmTransform.RtcpIv, EsrtcpWord, MkiBytes, CarriesMki;
    var n, word := RTCP_HEADER_SIZE, EsrtcpWord(encrypted, index);
    match t {
      case Cm(c) =>
        AesCmSha1.RtcpCryptInvolutive(cs, c, plain, h, index);
        var text := c.RtcpCrypt(cs, plain, h, index);
        var body := text + word;
        Prefixed(body, text, word, n);
        LaidOut(packet, body, c.mki, c.RtcpTag(cs, body), n);
        LaidOut(packet, body, c.mki, c.RtcpTag(cs, body), |text|);
      case Gcm(g) =>
        var iv := g.RtcpIv(h, index);
        var (text, tag) := cs.seal(g.rtcpKeys.key, iv, plain[..n] + EsrtcpWord(true, index), plain[n..]).value;
        var sealed := plain[..n] + text + tag;
        Regroup(plain[..n], text, tag);
        Prefixed(sealed, plain[..n], text + tag, n);
        Prefixed(sealed + word, sealed, word, n);
        assert packet == sealed + word + MkiBytes(g.mki) + [];
        LaidOut(packet, sealed + word, g.mki, [], n);
        LaidOut(packet, sealed + word, g.mki, [], |sealed|);
    }
  }

  lemma RtcpPlainLength(
    cs: Suite, t: Transform, plain: Bytes, packet: Bytes, h: RtcpHeader, index: u31)
    requires t.Valid() && |packet| >= RTCP_HEADER_SIZE + t.RtcpTrailerLen()
    requires t.RtcpUnprotected(cs, packet, h, index, t.RtcpTrailerLen()) == Ok(plain)
    ensures |packet| == |plain| + t.RtcpExpansion() + 4 + |MkiBytes(t.Mki())|
  {
    hide CmTransform.RtcpCrypt, CmTransform.RtcpTag, GcmTransform.RtpIv, GcmTransform.RtcpIv, EsrtcpWord;
  }

  /** Where the word and the MKI of an SRTCP trailer are. */
  lemma WordThenMki(packet: Bytes, tagLen: nat, mki: Mki, word: Bytes)
    requires CarriesMki(packet, tagLen, mki) && CarriesWord(packet, 4 + tagLen + |MkiBytes(mki)|, word)
    ensures var n := |MkiBytes(mki)|;
            var at := |packet| - (4 + tagLen + n);
            && packet[at..at + 4] == word
            && packet[at + 4..at + 4 + n] == MkiBytes(mki)
            && (tagLen == 0 ==> packet[at + 4..] == MkiBytes(mki))
  {
  }

  lemma RtcpInverse(
    cs: Suite, t: Transform, plain: Bytes, packet: Bytes, h: RtcpHeader, index: u31, encrypted: bool)
    requires t.Valid() && RTCP_HEADER_SIZE <= |plain|
    requires |packet| == |plain| + t.RtcpExpansion() + 4 + |MkiBytes(t.Mki())|
    requires CarriesMki(packet, t.RtcpTagLen(), t.Mki())
    requires CarriesWord(packet, t.RtcpTrailerLen(), EsrtcpWord(encrypted, index))
    ensures t.SrtcpPacket(cs, plain, h, index, encrypted) == Ok(packet) <==>
            t.RtcpUnprotected(cs, packet, h, index, t.RtcpTrailerLen()) == Ok(plain)
  {
    hide CmTransform.SrtcpPacket, GcmTransform.SrtcpPacket, EsrtcpWord, CarriesMki, CarriesWord, MkiBytes,
         CmTransform.RtcpUnprotected, GcmTransform.RtcpUnprotected;
    WordThenMki(packet, t.RtcpTagLen(), t.Mki(), EsrtcpWord(encrypted, index));
    match t {
      case Cm(c) => AesCmSha1.RtcpInverse(cs, c, plain, packet, h, index, encrypted);
      case Gcm(g) => AesGcm.RtcpInverse(cs, g, plain, packet, h, index, encrypted);
    }
  }

  /** The same for SRTCP, up to the E flag, which the receiver does not look at. */
  lemma RtcpExact(
    cs: Suite, t: Transform, plain: Bytes, packet: Bytes, h: RtcpHeader, index: u31, encrypted: bool)
    requires t.Valid() && RTCP_HEADER_SIZE <= |plain| && |packet| >= RTCP_HEADER_SIZE + t.RtcpTrailerLen()
    ensures t.SrtcpPacket(cs, plain, h, index, encrypted) == Ok(packet) <==>
            && t.RtcpUnprotected(cs, packet, h, index, t.RtcpTrailerLen()) == Ok(plain)
            && CarriesMki(packet, t.RtcpTagLen(), t.Mki())
            && CarriesWord(packet, t.RtcpTrailerLen(), EsrtcpWord(encrypted, index))
  {
    hide Transform.SrtcpPacket, Transform.RtcpUnprotected, EsrtcpWord, CarriesMki, CarriesWord;
    if t.SrtcpPacket(cs, plain, h, index, encrypted) == Ok(packet) {
      RtcpLengths(cs, t, plain, packet, h, index, encrypted);
    } else if t.RtcpUnprotected(cs, packet, h, index, t.RtcpTrailerLen()) == Ok(plain) {
      RtcpPlainLength(cs, t, plain, packet, h, index);
    }
    if && |packet| == |plain| + t.RtcpExpansion() + 4 + |MkiBytes(t.Mki())|
       && CarriesMki(packet, t.RtcpTagLen(), t.Mki())
       && CarriesWord(packet, t.RtcpTrailerLen(), EsrtcpWord(encrypted, index)) {
      RtcpInverse(cs, t, plain, packet, h, index, encrypted);
    }
  }

  // ---- the vectors in use ----

  /** A protected packet is encrypted under the vector of its header and ROC. */
  lemma RtpVectorUsed(cs: Suite, t: Transform, plain: Bytes, packet: Bytes, h: RtpHeader, roc: u32)
    requires t.Valid() && t.EncryptsRtp() && h.len <= |plain|
    requires t.RtpProtected(cs, plain, h, roc) == Ok(packet)
    ensures t.RtpEncryptedUnder(cs, t.RtpIv(h, roc), plain, h.len, packet)
  {
    hide CmTransform.RtpIv, GcmTransform.RtpIv, CmTransform.RtpTag, Keystream, XorBytes, MkiBytes, CtrEncrypted;
    match t {
      case Cm(c) =>
        var text, n := c.RtpCrypt(cs, plain, h, roc), h.len;
        var stream := Keystream(cs, c.rtpKeys.key.value, c.RtpIv(h, roc), |plain| - n);
        LaidOut(packet, text, c.mki, c.RtpTag(cs, text, roc), n);
        Prefixed(text, plain[..n], XorBytes(plain[n..], stream), n);
        KeystreamEncrypts(cs, c.rtpKeys.key.value, c.RtpIv(h, roc), plain[n..]);
      case Gcm(g) =>
        var (text, tag) := cs.seal(g.rtpKeys.key, g.RtpIv(h, roc), plain[..h.len], plain[h.len..]).value;
        FourParts(packet, plain[..h.len], text, tag, MkiBytes(g.mki));
    }
  }

  lemma RtcpVectorUsed(cs: Suite, t: Transform, plain: Bytes, packet: Bytes, h: RtcpHeader, index: u31)
    requires t.Valid() && t.EncryptsRtcp() && RTCP_HEADER_SIZE <= |plain|
    requires t.RtcpProtected(cs, plain, h, index) == Ok(packet)
    ensures t.RtcpEncryptedUnder(cs, t.RtcpIv(h, index), index, plain, packet)
  {
    hide CmTransform.RtcpIv, GcmTransform.RtcpIv, CmTransform.RtcpTag, Keystream, XorBytes, MkiBytes, CtrEncrypted,
         EsrtcpWord;
    var n, word := RTCP_HEADER_SIZE, EsrtcpWord(true, index);
    match t {
      case Cm(c) =>
        var text := c.RtcpCrypt(cs, plain, h, index);
        var stream := Keystream(cs, c.rtcpKeys.key.value, c.RtcpIv(h, index), |plain| - n);
        Regroup(text, word, MkiBytes(c.mki));
        Regroup(text, word + MkiBytes(c.mki), c.RtcpTag(cs, text + word));
        Prefixed(packet, text, word + MkiBytes(c.mki) + c.RtcpTag(cs, text + word), |text|);
        Prefixed(text, plain[..n], XorBytes(plain[n..], stream), n);
        assert packet[n..|plain|] == packet[..|plain|][n..];
        KeystreamEncrypts(cs, c.rtcpKeys.key.value, c.RtcpIv(h, index), plain[n..]);
      case Gcm(g) =>
        var (text, tag) := cs.seal(g.rtcpKeys.key, g.RtcpIv(h, index), plain[..n] + word, plain[n..]).value;
        Regroup(plain[..n] + text + tag, word, MkiBytes(g.mki));
        FourParts(packet, plain[..n], text, tag, word + MkiBytes(g.mki));
    }
  }

  /** Under one salt, two vectors are the same exactly when SSRC, ROC and sequence number are. */
  lemma RtpIvEqualIff(t: Transform, h: RtpHeader, roc: u32, t': Transform, h': RtpHeader, roc': u32)
    requires t.Valid() && t.EncryptsRtp() && t'.Valid() && t'.EncryptsRtp() && t.RtpSalt() == t'.RtpSalt()
    ensures t.RtpIv(h, roc) == t'.RtpIv(h', roc') <==> (h.ssrc, roc, h.seqNum) == (h'.ssrc, roc', h'.seqNum)
  {
    hide CmIv, GcmIv;
    var i, i' := roc * 0x1_0000 + h.seqNum, roc' * 0x1_0000 + h'.seqNum;
    if t.RtpIv(h, roc) == t'.RtpIv(h', roc') {
      match t {
        case Cm(c) => CmIvInjective(c.rtpKeys.salt.value, h.ssrc, i, h'.ssrc, i');
        case Gcm(g) => GcmIvInjective(g.rtpKeys.salt, h.ssrc, i, h'.ssrc, i');
      }
    }
  }

  lemma RtcpIvEqualIff(t: Transform, h: RtcpHeader, index: u31, t': Transform, h': RtcpHeader, index': u31)
    requires t.Valid() && t.EncryptsRtcp() && t'.Valid() && t'.EncryptsRtcp() && t.RtcpSalt() == t'.RtcpSalt()
    ensures t.RtcpIv(h, index) == t'.RtcpIv(h', index') <==> h == h' && index == index'
  {
    hide CmIv, GcmIv;
    if t.RtcpIv(h, index) == t'.RtcpIv(h', index') {
      match t {
        case Cm(c) => CmIvInjective(c.rtcpKeys.salt.value, h.ssrc, index, h'.ssrc, index');
        case Gcm(g) => GcmIvInjective(g.rtcpKeys.salt, h.ssrc, index, h'.ssrc, index');
      }
    }
  }

  /** Nor do the blocks they encrypt meet, for packets of at most 2^16 blocks, when the vectors differ. */
  lemma RtpBlocksDisjoint(
    t: Transform, h: RtpHeader, roc: u32, j: u16, t': Transform, h': RtpHeader, roc': u32, j': u16, b: Bytes)
    requires t.Valid() && t.EncryptsRtp() && t'.Valid() && t'.EncryptsRtp() && t.RtpSalt() == t'.RtpSalt()
    requires t.Cm? && t'.Cm? && (h.ssrc, roc, h.seqNum) != (h'.ssrc, roc', h'.seqNum)
    ensures !(IsCounter(b, t.RtpIv(h, roc), j) && IsCounter(b, t'.RtpIv(h', roc'), j'))
  {
    hide CmIv, CounterBlock, IsCounter;
    if IsCounter(b, t.RtpIv(h, roc), j) && IsCounter(b, t'.RtpIv(h', roc'), j') {
      var i, i' := roc * 0x1_0000 + h.seqNum, roc' * 0x1_0000 + h'.seqNum;
      CounterBlockIsCounter(b, t.RtpIv(h, roc), j);
      CounterBlockIsCounter(b, t'.RtpIv(h', roc'), j');
      CounterBlocksDisjoint(t.cm.rtpKeys.salt.value, h.ssrc, i, j, h'.ssrc, i', j');
    }
  }

  lemma RtcpBlocksDisjoint(
    t: Transform, h: RtcpHeader, index: u31, j: u16, t': Transform, h': RtcpHeader, index': u31, j': u16, b: Bytes)
    requires t.Valid() && t.EncryptsRtcp() && t'.Valid() && t'.EncryptsRtcp() && t.RtcpSalt() == t'.RtcpSalt()
    requires t.Cm? && t'.Cm? && (h, index) != (h', index')
    ensures !(IsCounter(b, t.RtcpIv(h, index), j) && IsCounter(b, t'.RtcpIv(h', index'), j'))
  {
    hide CmIv, CounterBlock, IsCounter;
    if IsCounter(b, t.RtcpIv(h, index), j) && IsCounter(b, t'.RtcpIv(h', index'), j') {
      CounterBlockIsCounter(b, t.RtcpIv(h, index), j);
      CounterBlockIsCounter(b, t'.RtcpIv(h', index'), j');
      CounterBlocksDisjoint(t.cm.rtcpKeys.salt.value, h.ssrc, index, j, h'.ssrc, index', j');
    }
  }
}
