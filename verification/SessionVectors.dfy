/** What the runs of a session mean for the vectors its packets are encrypted under. */
module SessionVectors {
  import opened Types
  import opened Crypto
  import opened Header
  import opened ReplayIndex
  import opened Transform
  import opened Packets
  import opened SessionSpec
  import opened SessionRuns
  import opened SessionRtcp

  // ---- SRTP ----

  /** How a sender protected a packet: the transform, the parsed header and the ROC. */
  datatype RtpSealing = RtpSealing(t: Transform, h: RtpHeader, roc: u32)

  function SealingOf(cs: Suite, y: Session, c: Call): (s: RtpSealing)
    requires y.Valid() && y.role.Sender? && UsedPair(cs, y, c) != []
    ensures c.CallRtp? && s.t.Valid() && s.h.len <= |c.packet|
    ensures s.t.RtpProtected(cs, c.packet, s.h, s.roc) == Do(cs, y, c).1 && Do(cs, y, c).1.Ok?
  {
    UsedPairProtects(cs, y, c);
    RtpSealing(Target(cs, y, c).1.stream.base.transforms[c.mki].transform, ParseRtp(c.packet).value,
               RocOf(UsedPair(cs, y, c)[0].1))
  }

  /** The pair a sender uses is the SSRC and the index that protect the packet it returns. */
  lemma UsedPairProtects(cs: Suite, y: Session, c: Call)
    requires y.Valid() && y.role.Sender? && UsedPair(cs, y, c) != []
    ensures ParseRtp(c.packet).Ok?
    ensures var (ssrc, i) := UsedPair(cs, y, c)[0];
            var h, s := ParseRtp(c.packet).value, Target(cs, y, c).1.stream;
            && h.ssrc == ssrc && h.seqNum == i % ROC_STEP
            && c.mki in s.base.transforms && s.base.transforms[c.mki].transform.Valid()
            && s.base.transforms[c.mki].transform.RtpProtected(cs, c.packet, h, RocOf(i)) == Do(cs, y, c).1
            && Do(cs, y, c).1.Ok?
  {
    hide Transform.RtpProtected, RtpIndex.Estimate, RtpIndex.Seen, Session.Find, Do, ParseRtp;
    Reached(cs, y, c);
    RequestFits(cs, y, c);
  }

  /** Below 2^48, ROC and sequence number are the whole index. */
  lemma IndexParts(i: nat, j: nat)
    requires i < RTP_INDEX_LIMIT && j < RTP_INDEX_LIMIT && RocOf(i) == RocOf(j) && i % ROC_STEP == j % ROC_STEP
    ensures i == j
  {
  }

  /** The index the transforms see is the one that is used, cut to 48 bits. */
  lemma IvIndex(i: nat)
    ensures RocOf(i) * ROC_STEP + i % ROC_STEP == i % RTP_INDEX_LIMIT
  {
  }

  lemma SealingParts(cs: Suite, y: Session, c: Call)
    requires y.Valid() && y.role.Sender? && UsedPair(cs, y, c) != []
    ensures var (s, p) := (SealingOf(cs, y, c), UsedPair(cs, y, c)[0]);
            s.h.ssrc == p.0 && s.roc * ROC_STEP + s.h.seqNum == p.1 % RTP_INDEX_LIMIT
  {
    hide UsedPair, ParseRtp, Transform.RtpProtected, Do, Target, Transform.Valid, RocOf, Session.Valid, Reaches;
    UsedPairProtects(cs, y, c);
    IvIndex(UsedPair(cs, y, c)[0].1);
  }

  /** Two packets share an IV under one salt exactly when SSRC and index modulo 2^48 agree. */
  lemma IvEqualIff(cs: Suite, y: Session, c: Call, y': Session, c': Call)
    requires y.Valid() && y.role.Sender? && UsedPair(cs, y, c) != []
    requires y'.Valid() && y'.role.Sender? && UsedPair(cs, y', c') != []
    ensures var (s, s') := (SealingOf(cs, y, c), SealingOf(cs, y', c'));
            var (p, q) := (UsedPair(cs, y, c)[0], UsedPair(cs, y', c')[0]);
            s.t.EncryptsRtp() && s'.t.EncryptsRtp() && s.t.RtpSalt() == s'.t.RtpSalt() ==>
              (s.t.RtpIv(s.h, s.roc) == s'.t.RtpIv(s'.h, s'.roc)
               <==> p.0 == q.0 && p.1 % RTP_INDEX_LIMIT == q.1 % RTP_INDEX_LIMIT)
  {
    hide UsedPair, SealingOf, Transform.RtpProtected, Transform.Valid, Transform.RtpIv, Transform.RtpSalt,
         Transform.EncryptsRtp, Session.Valid, Do;
    SealingParts(cs, y, c);
    SealingParts(cs, y', c');
    var s, s' := SealingOf(cs, y, c), SealingOf(cs, y', c');
    if s.t.EncryptsRtp() && s'.t.EncryptsRtp() && s.t.RtpSalt() == s'.t.RtpSalt() {
      RtpIvEqualIff(s.t, s.h, s.roc, s'.t, s'.h, s'.roc);
    }
  }

  /**
   Every RTP packet that a session of senders returns is encrypted under the vector of its own
   transform, header and ROC; and while indexes stay below 2^48, no two of those vectors with one
   session salt are the same, nor two of the blocks that packets of at most 2^16 blocks encrypt.
   In counter mode the packet is authenticated with its ROC.
   */
  lemma IvsNeverRepeat(cs: Suite, y: Session, calls: seq<Call>, j: nat, k: nat, m: u16, m': u16, b: Bytes)
    requires y.Valid() && y.role.Sender? && Guarded(y) && CarefulCalls(cs, y, calls)
    requires forall p | p in UsedPairs(cs, y, calls) :: p.1 < RTP_INDEX_LIMIT
    requires j < k < |calls|
    requires UsedPair(cs, RunCalls(cs, y, calls[..j]), calls[j]) != []
    requires UsedPair(cs, RunCalls(cs, y, calls[..k]), calls[k]) != []
    ensures var (yj, yk) := (RunCalls(cs, y, calls[..j]), RunCalls(cs, y, calls[..k]));
            var (s, s') := (SealingOf(cs, yj, calls[j]), SealingOf(cs, yk, calls[k]));
            && (s.t.EncryptsRtp() ==>
                  s.t.RtpEncryptedUnder(
                    cs, s.t.RtpIv(s.h, s.roc), calls[j].packet, s.h.len, Do(cs, yj, calls[j]).1.value))
            && (s.t.Cm? ==>
                  RtpAuthentic(cs, s.t.cm, Do(cs, yj, calls[j]).1.value, |calls[j].packet|, s.roc))
            && (s.t.EncryptsRtp() && s'.t.EncryptsRtp() && s.t.RtpSalt() == s'.t.RtpSalt() ==>
                  && s.t.RtpIv(s.h, s.roc) != s'.t.RtpIv(s'.h, s'.roc)
                  && (s.t.Cm? && s'.t.Cm? ==>
                        !(IsCounter(b, s.t.RtpIv(s.h, s.roc), m) && IsCounter(b, s'.t.RtpIv(s'.h, s'.roc), m'))))
  {
    hide UsedPairs, UsedPair, IsCounter, CarefulCalls, RunCalls, Guarded, Do, SealingOf, Transform.RtpProtected,
         RtpAuthentic, Transform.Valid, Transform.RtpEncryptedUnder, Transform.RtpIv,
         Transform.RtpSalt, Transform.EncryptsRtp;
    var yj, yk := RunCalls(cs, y, calls[..j]), RunCalls(cs, y, calls[..k]);
    SealingDiffers(cs, y, calls, j, k);
    var s, s' := SealingOf(cs, yj, calls[j]), SealingOf(cs, yk, calls[k]);
    if s.t.Cm? {
      RtpTagged(cs, s.t, calls[j].packet, Do(cs, yj, calls[j]).1.value, s.h, s.roc);
    }
    if s.t.EncryptsRtp() {
      RtpVectorUsed(cs, s.t, calls[j].packet, Do(cs, yj, calls[j]).1.value, s.h, s.roc);
      if s'.t.EncryptsRtp() && s.t.RtpSalt() == s'.t.RtpSalt() {
        RtpIvEqualIff(s.t, s.h, s.roc, s'.t, s'.h, s'.roc);
        if s.t.Cm? && s'.t.Cm? {
          RtpBlocksDisjoint(s.t, s.h, s.roc, m, s'.t, s'.h, s'.roc, m', b);
        }
      }
    }
  }

  lemma SealingDiffers(cs: Suite, y: Session, calls: seq<Call>, j: nat, k: nat)
    requires y.Valid() && y.role.Sender? && Guarded(y) && CarefulCalls(cs, y, calls)
    requires forall p | p in UsedPairs(cs, y, calls) :: p.1 < RTP_INDEX_LIMIT
    requires j < k < |calls|
    requires UsedPair(cs, RunCalls(cs, y, calls[..j]), calls[j]) != []
    requires UsedPair(cs, RunCalls(cs, y, calls[..k]), calls[k]) != []
    ensures var s := SealingOf(cs, RunCalls(cs, y, calls[..j]), calls[j]);
            var s' := SealingOf(cs, RunCalls(cs, y, calls[..k]), calls[k]);
            (s.h.ssrc, s.roc, s.h.seqNum) != (s'.h.ssrc, s'.roc, s'.h.seqNum)
  {
    hide UsedPairs, UsedPair, CarefulCalls, RunCalls, Guarded, Do, Transform.RtpProtected, Transform.Valid, Target,
         Reaches, RocOf, ParseRtp, Session.Valid;
    var yj, yk := RunCalls(cs, y, calls[..j]), RunCalls(cs, y, calls[..k]);
    var p, q := UsedPair(cs, yj, calls[j])[0], UsedPair(cs, yk, calls[k])[0];
    assert p in UsedPair(cs, yj, calls[j]) && q in UsedPair(cs, yk, calls[k]);
    CallsUseDifferentPairs(cs, y, calls, j, k);
    PairIsUsed(cs, y, calls, j);
    PairIsUsed(cs, y, calls, k);
    UsedPairProtects(cs, yj, calls[j]);
    UsedPairProtects(cs, yk, calls[k]);
    if RocOf(p.1) == RocOf(q.1) && p.1 % ROC_STEP == q.1 % ROC_STEP {
      IndexParts(p.1, q.1);
    }
  }

  // ---- SRTCP ----

  /** How a sender protected an RTCP packet: the transform, the parsed header and the index. */
  datatype RtcpSealing = RtcpSealing(t: Transform, h: RtcpHeader, index: u31)

  function RtcpSealingOf(cs: Suite, y: Session, c: Call): (s: RtcpSealing)
    requires y.Valid() && y.role.Sender? && UsedRtcp(cs, y, c) != []
    ensures c.CallRtcp? && s.t.Valid() && RTCP_HEADER_SIZE <= |c.packet|
    ensures s.t.RtcpProtected(cs, c.packet, s.h, s.index) == Do(cs, y, c).1 && Do(cs, y, c).1.Ok?
    ensures UsedRtcp(cs, y, c) == [(s.h.ssrc, s.index)]
  {
    UsedRtcpProtects(cs, y, c);
    RtcpSealing(Target(cs, y, c).1.stream.base.transforms[c.mki].transform, ParseRtcp(c.packet).value,
                Target(cs, y, c).1.stream.side.rtcpIndex)
  }

  lemma UsedRtcpProtects(cs: Suite, y: Session, c: Call)
    requires y.Valid() && y.role.Sender? && UsedRtcp(cs, y, c) != []
    ensures ParseRtcp(c.packet).Ok?
    ensures var h, s := ParseRtcp(c.packet).value, Target(cs, y, c).1.stream;
            && UsedRtcp(cs, y, c) == [(h.ssrc, s.side.rtcpIndex)]
            && c.mki in s.base.transforms && s.base.transforms[c.mki].transform.Valid()
            && s.base.transforms[c.mki].transform.RtcpProtected(cs, c.packet, h, s.side.rtcpIndex) == Do(cs, y, c).1
            && Do(cs, y, c).1.Ok?
  {
    hide Transform.RtcpProtected, RtpIndex.Estimate, RtpIndex.Seen, Session.Find, Do, ParseRtcp;
    Reached(cs, y, c);
    RequestFits(cs, y, c);
  }

  /**
   The same for SRTCP, for every index: over a session whose streams each keep to a single master
   key, no two vectors with one session salt are the same, nor two of the blocks encrypted. In counter
   mode the packet is authenticated with its trailer word.
   */
  lemma RtcpIvsNeverRepeat(cs: Suite, y: Session, calls: seq<Call>, j: nat, k: nat, m: u16, m': u16, b: Bytes)
    requires y.Valid() && y.role.Sender? && AllMetered(y) && SingleKeyCalls(cs, y, calls)
    requires j < k < |calls|
    ensures var (yj, yk) := (RunCalls(cs, y, calls[..j]), RunCalls(cs, y, calls[..k]));
            yj.role.Sender? && yk.role.Sender?
            && (UsedRtcp(cs, yj, calls[j]) != [] && UsedRtcp(cs, yk, calls[k]) != [] ==>
                  var (s, s') := (RtcpSealingOf(cs, yj, calls[j]), RtcpSealingOf(cs, yk, calls[k]));
                  && (s.t.EncryptsRtcp() ==>
                        s.t.RtcpEncryptedUnder(
                          cs, s.t.RtcpIv(s.h, s.index), s.index, calls[j].packet, Do(cs, yj, calls[j]).1.value))
                  && (s.t.Cm? ==>
                        RtcpAuthentic(cs, s.t.cm, Do(cs, yj, calls[j]).1.value, |calls[j].packet| + 4))
                  && (s.t.EncryptsRtcp() && s'.t.EncryptsRtcp() && s.t.RtcpSalt() == s'.t.RtcpSalt() ==>
                        && s.t.RtcpIv(s.h, s.index) != s'.t.RtcpIv(s'.h, s'.index)
                        && (s.t.Cm? && s'.t.Cm? ==>
                              !(IsCounter(b, s.t.RtcpIv(s.h, s.index), m)
                                && IsCounter(b, s'.t.RtcpIv(s'.h, s'.index), m')))))
  {
    hide UsedRtcp, IsCounter, SingleKeyCalls, RunCalls, AllMetered, Do, RtcpSealingOf, Transform.RtcpProtected,
         RtcpAuthentic, Transform.Valid, Transform.RtcpEncryptedUnder, Transform.RtcpIv,
         Transform.RtcpSalt, Transform.EncryptsRtcp;
    RtcpPairsUsedOnce(cs, y, calls, j, k);
    var yj, yk := RunCalls(cs, y, calls[..j]), RunCalls(cs, y, calls[..k]);
    if UsedRtcp(cs, yj, calls[j]) != [] && UsedRtcp(cs, yk, calls[k]) != [] {
      var s, s' := RtcpSealingOf(cs, yj, calls[j]), RtcpSealingOf(cs, yk, calls[k]);
      assert (s.h.ssrc, s.index) in UsedRtcp(cs, yj, calls[j]);
      assert (s.h, s.index) != (s'.h, s'.index);
      if s.t.Cm? {
        RtcpTagged(cs, s.t, calls[j].packet, Do(cs, yj, calls[j]).1.value, s.h, s.index);
      }
      if s.t.EncryptsRtcp() {
        RtcpVectorUsed(cs, s.t, calls[j].packet, Do(cs, yj, calls[j]).1.value, s.h, s.index);
        if s'.t.EncryptsRtcp() && s.t.RtcpSalt() == s'.t.RtcpSalt() {
          RtcpIvEqualIff(s.t, s.h, s.index, s'.t, s'.h, s'.index);
          if s.t.Cm? && s'.t.Cm? {
            RtcpBlocksDisjoint(s.t, s.h, s.index, m, s'.t, s'.h, s'.index, m', b);
          }
        }
      }
    }
  }
}
