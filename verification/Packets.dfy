/** Protected packets as seen on the wire: tags, encrypted bytes, the E flag, and when a receiver takes them. */
module Packets {
  import opened Types
  import opened Octets
  import opened Crypto
  import opened Header
  import opened InitVector
  import opened Trailer
  import opened AesCmSha1
  import opened AesGcm
  import opened Transform

  // ---- authentication ----

  /**
   RFC 3711, section 4.2: the packet ends with the left-most bytes of the HMAC-SHA1 over its first
   `bodyLen` bytes and the ROC.
   */
  predicate RtpAuthentic(cs: Suite, t: CmTransform, packet: Bytes, bodyLen: nat, roc: u32)
    requires t.Valid()
  {
    var n := t.rtpProfile.TagLen();
    n == 0 || (
      && n <= |packet| && bodyLen <= |packet|
      && packet[|packet| - n..] == cs.hmac(t.rtpKeys.authKey.value, packet[..bodyLen] + ToBytes(roc, 4))[..n])
  }

  /** The same for SRTCP, where the trailer word is authenticated too, and no ROC. */
  predicate RtcpAuthentic(cs: Suite, t: CmTransform, packet: Bytes, bodyLen: nat)
    requires t.Valid()
  {
    && 10 <= |packet| && bodyLen <= |packet|
    && packet[|packet| - 10..] == cs.hmac(t.rtcpKeys.authKey.value, packet[..bodyLen])[..10]
  }

  /** AES-GCM: the ciphertext and tag are what sealing some plaintext gives. */
  ghost predicate Sealed(cs: Suite, key: Bytes, iv: Bytes, ad: Bytes, cipher: Bytes, tag: Bytes) {
    exists text :: cs.seal(key, iv, ad, text) == Some((cipher, tag))
  }

  lemma RtpTagged(cs: Suite, t: Transform, plain: Bytes, packet: Bytes, h: RtpHeader, roc: u32)
    requires t.Valid() && t.Cm? && h.len <= |plain|
    requires t.RtpProtected(cs, plain, h, roc) == Ok(packet)
    ensures RtpAuthentic(cs, t.cm, packet, |plain|, roc)
  {
    hide CmTransform.RtpCrypt, MkiBytes, ToBytes;
    var text := t.cm.RtpCrypt(cs, plain, h, roc);
    ThreeParts(packet, text, MkiBytes(t.cm.mki), t.cm.RtpTag(cs, text, roc));
  }

  lemma RtcpTagged(cs: Suite, t: Transform, plain: Bytes, packet: Bytes, h: RtcpHeader, index: u31)
    requires t.Valid() && t.Cm? && RTCP_HEADER_SIZE <= |plain|
    requires t.RtcpProtected(cs, plain, h, index) == Ok(packet)
    ensures RtcpAuthentic(cs, t.cm, packet, |plain| + 4)
  {
    hide CmTransform.RtcpCrypt, MkiBytes, EsrtcpWord;
    var body := t.cm.RtcpCrypt(cs, plain, h, index) + EsrtcpWord(t.EncryptsRtcp(), index);
    ThreeParts(packet, body, MkiBytes(t.cm.mki), t.cm.RtcpTag(cs, body));
  }

  // ---- encryption ----

  /** The vectors of RFC 3711, section 4.1.1, and RFC 7714, section 8.1: the salt XORed with SSRC, ROC and SEQ. */
  lemma RtpVectorBytes(t: Transform, h: RtpHeader, roc: u32)
    requires t.Valid() && t.EncryptsRtp()
    ensures var fields := ToBytes(h.ssrc, 4) + ToBytes(roc, 4) + ToBytes(h.seqNum, 2);
            t.RtpIv(h, roc) == match t
                               case Cm(c) => XorBytes(c.rtpKeys.salt.value + [0, 0], [0, 0, 0, 0] + fields + [0, 0])
                               case Gcm(g) => XorBytes(g.rtpKeys.salt, [0, 0] + fields)
  {
    hide ToBytes, CmIv, GcmIv, XorBytes;
    var i := roc * 0x1_0000 + h.seqNum;
    ToBytesTail(roc, h.seqNum, 4);
    var fields := ToBytes(h.ssrc, 4) + ToBytes(roc, 4) + ToBytes(h.seqNum, 2);
    assert Zeros(2) == [0, 0] && Zeros(4) == [0, 0, 0, 0];
    match t {
      case Cm(c) =>
        CmIvBytes(c.rtpKeys.salt.value, h.ssrc, i);
        assert CmPacked(h.ssrc, i) == [0, 0, 0, 0] + fields + [0, 0];
      case Gcm(g) =>
        GcmIvBytes(g.rtpKeys.salt, h.ssrc, i);
        assert GcmPacked(h.ssrc, i) == [0, 0] + fields;
    }
  }

  lemma SixBytes(index: u31)
    ensures ToBytes(index, 6) == [0, 0] + ToBytes(index, 4)
  {
    hide ToBytes, Pow256;
    Powers();
    ToBytesPad(index, 4);
  }

  /** For SRTCP (RFC 7714, section 9.1) the index takes the last four bytes of ROC and SEQ. */
  lemma RtcpVectorBytes(t: Transform, h: RtcpHeader, index: u31)
    requires t.Valid() && t.EncryptsRtcp()
    ensures var fields := ToBytes(h.ssrc, 4) + [0, 0] + ToBytes(index, 4);
            t.RtcpIv(h, index) == match t
                                  case Cm(c) => XorBytes(c.rtcpKeys.salt.value + [0, 0], [0, 0, 0, 0] + fields + [0, 0])
                                  case Gcm(g) => XorBytes(g.rtcpKeys.salt, [0, 0] + fields)
  {
    hide ToBytes, CmIv, GcmIv, XorBytes;
    SixBytes(index);
    var fields := ToBytes(h.ssrc, 4) + [0, 0] + ToBytes(index, 4);
    assert Zeros(2) == [0, 0] && Zeros(4) == [0, 0, 0, 0];
    match t {
      case Cm(c) =>
        CmIvBytes(c.rtcpKeys.salt.value, h.ssrc, index);
        assert CmPacked(h.ssrc, index) == [0, 0, 0, 0] + fields + [0, 0];
      case Gcm(g) =>
        GcmIvBytes(g.rtcpKeys.salt, h.ssrc, index);
        assert GcmPacked(h.ssrc, index) == [0, 0] + fields;
    }
  }

  /**
   RFC 3711, section 4.1.1: byte k of the payload is XORed with byte k mod 16 of the encrypted block
   whose number is the vector plus k / 16.
   */
  lemma RtpCipherByte(
      cs: Suite, t: Transform, plain: Bytes, packet: Bytes, h: RtpHeader, roc: u32, k: nat, b: Bytes)
    requires t.Valid() && t.Cm? && t.EncryptsRtp() && h.len <= |plain|
    requires t.RtpProtected(cs, plain, h, roc) == Ok(packet)
    requires h.len + k < |plain| && k / 16 < 0x1_0000
    requires |b| == 16 && FromBytes(b) == FromBytes(t.RtpIv(h, roc)) + k / 16
    ensures |plain| <= |packet|
    ensures packet[h.len + k] == XorByte(plain[h.len + k], cs.block(t.cm.rtpKeys.key.value, b)[k % 16])
  {
    hide CmIv, Transform.RtpProtected, IsCounter, FromBytes, XorByte;
    RtpVectorUsed(cs, t, plain, packet, h, roc);
    CmIvTail(t.cm.rtpKeys.salt.value, h.ssrc, roc * 0x1_0000 + h.seqNum);
    CounterIsSum(b, t.RtpIv(h, roc), k / 16);
    assert packet[h.len..|plain|][k] == XorByte(plain[h.len..][k], cs.block(t.cm.rtpKeys.key.value, b)[k % 16]);
  }

  lemma RtcpCipherByte(
      cs: Suite, t: Transform, plain: Bytes, packet: Bytes, h: RtcpHeader, index: u31, k: nat, b: Bytes)
    requires t.Valid() && t.Cm? && t.EncryptsRtcp() && RTCP_HEADER_SIZE <= |plain|
    requires t.RtcpProtected(cs, plain, h, index) == Ok(packet)
    requires RTCP_HEADER_SIZE + k < |plain| && k / 16 < 0x1_0000
    requires |b| == 16 && FromBytes(b) == FromBytes(t.RtcpIv(h, index)) + k / 16
    ensures |plain| <= |packet|
    ensures packet[RTCP_HEADER_SIZE + k]
         == XorByte(plain[RTCP_HEADER_SIZE + k], cs.block(t.cm.rtcpKeys.key.value, b)[k % 16])
  {
    hide CmIv, Transform.RtcpProtected, IsCounter, FromBytes, XorByte;
    RtcpVectorUsed(cs, t, plain, packet, h, index);
    CmIvTail(t.cm.rtcpKeys.salt.value, h.ssrc, index);
    CounterIsSum(b, t.RtcpIv(h, index), k / 16);
    assert packet[RTCP_HEADER_SIZE..|plain|][k]
        == XorByte(plain[RTCP_HEADER_SIZE..][k], cs.block(t.cm.rtcpKeys.key.value, b)[k % 16]);
  }

  // ---- what a receiver answers ----

  /** A counter-mode receiver refuses what is too short, then what is not authentic, and nothing else. */
  lemma CmRtpVerdict(cs: Suite, t: Transform, packet: Bytes, h: RtpHeader, roc: u32)
    requires t.Valid() && t.Cm?
    ensures var r, trailerLen := t.RtpUnprotected(cs, packet, h, roc), t.cm.rtpProfile.TagLen() + |MkiBytes(t.cm.mki)|;
            if |packet| < h.len + trailerLen then r == Err(InvalidPacket)
            else if RtpAuthentic(cs, t.cm, packet, |packet| - trailerLen, roc) then r.Ok?
            else r == Err(Authentication)
  {
    hide CmTransform.RtpCrypt, MkiBytes, ToBytes;
  }

  lemma CmRtcpVerdict(cs: Suite, t: Transform, packet: Bytes, h: RtcpHeader, index: u31)
    requires t.Valid() && t.Cm? && |packet| >= RTCP_HEADER_SIZE + t.RtcpTrailerLen()
    ensures var r := t.RtcpUnprotected(cs, packet, h, index, t.RtcpTrailerLen());
            if RtcpAuthentic(cs, t.cm, packet, |packet| - t.RtcpTrailerLen() + 4) then r.Ok?
            else r == Err(Authentication)
  {
    hide CmTransform.RtcpCrypt, MkiBytes;
  }

  /** A GCM receiver refuses what is too short, then what no sender with its key could have sealed. */
  lemma GcmRtpVerdict(cs: Suite, t: Transform, packet: Bytes, h: RtpHeader, roc: u32)
    requires t.Valid() && t.Gcm?
    ensures var r, trailerLen := t.RtpUnprotected(cs, packet, h, roc), |MkiBytes(t.gcm.mki)| + GCM_TAG_LEN;
            if |packet| < h.len + trailerLen then r == Err(InvalidPacket)
            else
              var at := |packet| - trailerLen;
              var (text, tag) := (packet[h.len..at], packet[at..at + GCM_TAG_LEN]);
              if Sealed(cs, t.gcm.rtpKeys.key, t.RtpIv(h, roc), packet[..h.len], text, tag) then r.Ok?
              else r == Err(Authentication)
  {
    hide GcmTransform.RtpIv, MkiBytes;
  }

  lemma GcmRtcpVerdict(cs: Suite, t: Transform, packet: Bytes, h: RtcpHeader, index: u31)
    requires t.Valid() && t.Gcm? && |packet| >= RTCP_HEADER_SIZE + t.RtcpTrailerLen()
    ensures var r := t.RtcpUnprotected(cs, packet, h, index, t.RtcpTrailerLen());
            var trailerLen := t.RtcpTrailerLen() + GCM_TAG_LEN;
            if |packet| < RTCP_HEADER_SIZE + trailerLen then r == Err(InvalidPacket)
            else
              var at := |packet| - trailerLen;
              var (text, tag) := (packet[RTCP_HEADER_SIZE..at], packet[at..at + GCM_TAG_LEN]);
              var ad := packet[..RTCP_HEADER_SIZE] + ToBytes(index + 0x8000_0000, 4);
              if Sealed(cs, t.gcm.rtcpKeys.key, t.RtcpIv(h, index), ad, text, tag) then r.Ok?
              else r == Err(Authentication)
  {
    hide GcmTransform.RtcpIv, MkiBytes, ToBytes;
  }

  // ---- what a sender answers ----

  /** A counter-mode sender always has a packet; a GCM sender has one exactly when sealing succeeds. */
  lemma RtpSendVerdict(cs: Suite, t: Transform, plain: Bytes, h: RtpHeader, roc: u32)
    requires t.Valid() && h.len <= |plain|
    ensures t.Cm? ==> t.RtpProtected(cs, plain, h, roc).Ok?
    ensures t.Gcm? ==>
              if cs.seal(t.gcm.rtpKeys.key, t.RtpIv(h, roc), plain[..h.len], plain[h.len..]).Some?
              then t.RtpProtected(cs, plain, h, roc).Ok?
              else t.RtpProtected(cs, plain, h, roc) == Err(Encryption)
  {
    hide CmTransform.SrtpPacket, GcmTransform.RtpIv;
  }

  lemma RtcpSendVerdict(cs: Suite, t: Transform, plain: Bytes, h: RtcpHeader, index: u31)
    requires t.Valid() && RTCP_HEADER_SIZE <= |plain|
    ensures t.Cm? ==> t.RtcpProtected(cs, plain, h, index).Ok?
    ensures t.Gcm? ==>
              var ad := plain[..RTCP_HEADER_SIZE] + ToBytes(index + 0x8000_0000, 4);
              if cs.seal(t.gcm.rtcpKeys.key, t.RtcpIv(h, index), ad, plain[RTCP_HEADER_SIZE..]).Some?
              then t.RtcpProtected(cs, plain, h, index).Ok?
              else t.RtcpProtected(cs, plain, h, index) == Err(Encryption)
  {
    hide CmTransform.SrtcpPacket, GcmTransform.RtcpIv, ToBytes;
  }

  // ---- without encryption ----

  /** A profile without a cipher leaves the whole packet clear. */
  lemma RtpClear(cs: Suite, t: Transform, plain: Bytes, packet: Bytes, h: RtpHeader, roc: u32)
    requires t.Valid() && !t.EncryptsRtp() && h.len <= |plain|
    requires t.RtpProtected(cs, plain, h, roc) == Ok(packet)
    ensures |plain| <= |packet| && packet[..|plain|] == plain
  {
    hide CmTransform.RtpTag, MkiBytes;
    LaidOut(packet, plain, t.cm.mki, t.cm.RtpTag(cs, plain, roc), |plain|);
  }

  lemma RtcpClear(cs: Suite, t: Transform, plain: Bytes, packet: Bytes, h: RtcpHeader, index: u31)
    requires t.Valid() && !t.EncryptsRtcp() && RTCP_HEADER_SIZE <= |plain|
    requires t.RtcpProtected(cs, plain, h, index) == Ok(packet)
    ensures |plain| <= |packet| && packet[..|plain|] == plain
  {
    hide CmTransform.RtcpTag, MkiBytes, EsrtcpWord;
    var word := EsrtcpWord(false, index);
    LaidOut(packet, plain + word, t.cm.mki, t.cm.RtcpTag(cs, plain + word), |plain|);
  }

  // ---- the trailer word ----

  lemma WordValue(encrypted: bool, index: u31)
    ensures U32At(EsrtcpWord(encrypted, index), 0) == index + if encrypted then 0x8000_0000 else 0
  {
    U32Bytes(index + if encrypted then E_FLAG else 0);
  }

  lemma WordParts(encrypted: bool, index: u31)
    ensures var w := EsrtcpWord(encrypted, index);
            (w[0] >= 0x80 <==> encrypted) && U32At(w, 0) % 0x8000_0000 == index
  {
    hide EsrtcpWord;
    WordValue(encrypted, index);
  }

  /** RFC 3711, section 3.4: the E flag is set exactly when the packet is encrypted, above the index. */
  lemma RtcpTrailerWord(cs: Suite, t: Transform, plain: Bytes, packet: Bytes, h: RtcpHeader, index: u31)
    requires t.Valid() && RTCP_HEADER_SIZE <= |plain|
    requires t.RtcpProtected(cs, plain, h, index) == Ok(packet)
    ensures |packet| >= RTCP_HEADER_SIZE + t.RtcpTrailerLen()
    ensures var at := |packet| - t.RtcpTrailerLen();
            (packet[at] >= 0x80 <==> t.EncryptsRtcp()) && U32At(packet, at) % 0x8000_0000 == index
  {
    hide EsrtcpWord, Transform.RtcpTagLen, Transform.RtcpExpansion, Transform.Mki, CmTransform.SrtcpPacket,
         GcmTransform.SrtcpPacket, MkiBytes;
    var word, at := EsrtcpWord(t.EncryptsRtcp(), index), |packet| - t.RtcpTrailerLen();
    RtcpLengths(cs, t, plain, packet, h, index, t.EncryptsRtcp());
    ExpansionCoversTag(t);
    WordParts(t.EncryptsRtcp(), index);
    assert forall k | 0 <= k < 4 :: packet[at + k] == packet[at..at + 4][k] == word[k];
  }
}
