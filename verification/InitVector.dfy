/** Initialisation vectors: the XOR loops of both transforms, and the numbers they compute. */
module InitVector {
  import opened Types
  import opened Bits
  import opened Octets
  import opened Crypto

  type Salt14 = s: Bytes | |s| == 14 witness Zeros(14)
  type Salt12 = s: Bytes | |s| == 12 witness Zeros(12)
  /** A 48-bit SRTP packet index, or a 31-bit SRTCP one. */
  type Index48 = x: int | 0 <= x < 0x1_0000_0000_0000

  /** RFC 3711, section 4.1.1: (k_s * 2^16) XOR (SSRC * 2^64) XOR (i * 2^16). */
  function CmIv(salt: Salt14, ssrc: u32, i: Index48): (iv: Bytes)
    ensures |iv| == 16
  {
    ToBytes(Xor(Xor(FromBytes(salt) * 0x1_0000, ssrc * 0x1_0000_0000_0000_0000), i * 0x1_0000), 16)
  }

  /** RFC 7714, sections 8.1 and 9.1: k_s XOR (SSRC * 2^48) XOR i. */
  function GcmIv(salt: Salt12, ssrc: u32, i: Index48): (iv: Bytes)
    ensures |iv| == 12
  {
    ToBytes(Xor(Xor(FromBytes(salt), ssrc * 0x1_0000_0000_0000), i), 12)
  }

  // ---- the same vectors, byte by byte ----

  function CmPacked(ssrc: u32, i: Index48): (s: Bytes)
    ensures |s| == 16
  {
    Zeros(4) + ToBytes(ssrc, 4) + ToBytes(i, 6) + Zeros(2)
  }

  function GcmPacked(ssrc: u32, i: Index48): (s: Bytes)
    ensures |s| == 12
  {
    Zeros(2) + ToBytes(ssrc, 4) + ToBytes(i, 6)
  }

  /** Three-fold XOR of numbers, computed on bytes when the last two operands do not overlap. */
  lemma XorOfParts(k: Bytes, a: Bytes, b: Bytes, packed: Bytes)
    requires |k| == |a| == |b| == |packed|
    requires forall j | 0 <= j < |a| :: (a[j] == 0 && packed[j] == b[j]) || (b[j] == 0 && packed[j] == a[j])
    ensures ToBytes(Xor(Xor(FromBytes(k), FromBytes(a)), FromBytes(b)), |k|) == XorBytes(k, packed)
  {
    var s := XorBytes(XorBytes(k, a), b);
    forall j | 0 <= j < |k|
      ensures s[j] == XorBytes(k, packed)[j]
    {
      XorZero(k[j]);
      XorZero(Xor(k[j], a[j]));
    }
    assert s == XorBytes(k, packed);
    FromXorBytes(k, a);
    FromXorBytes(XorBytes(k, a), b);
    ToFromBytes(s);
  }

  lemma FromPadded(x: nat, before: nat, n: nat, after: nat)
    requires x < Pow256(n)
    ensures FromBytes(Zeros(before) + ToBytes(x, n) + Zeros(after)) == Pow256(after) * x
  {
    FromBytesConcat(Zeros(before) + ToBytes(x, n), Zeros(after));
    FromBytesConcat(Zeros(before), ToBytes(x, n));
    FromZeros(before);
    FromZeros(after);
    FromToBytes(x, n);
  }

  lemma Powers()
    ensures Pow256(0) == 1 && Pow256(2) == 0x1_0000 && Pow256(4) == 0x1_0000_0000
    ensures Pow256(6) == 0x1_0000_0000_0000 && Pow256(8) == 0x1_0000_0000_0000_0000
  {
    assert Pow256(2) == 0x100 * Pow256(1);
    assert Pow256(4) == 0x100 * Pow256(3) == 0x1_0000 * Pow256(2);
    assert Pow256(6) == 0x100 * Pow256(5) == 0x1_0000 * Pow256(4);
    assert Pow256(8) == 0x100 * Pow256(7) == 0x1_0000 * Pow256(6);
  }

  lemma CmIvBytes(salt: Salt14, ssrc: u32, i: Index48)
    ensures CmIv(salt, ssrc, i) == XorBytes(salt + Zeros(2), CmPacked(ssrc, i))
  {
    var a := Zeros(4) + ToBytes(ssrc, 4) + Zeros(8);
    var b := Zeros(8) + ToBytes(i, 6) + Zeros(2);
    assert FromBytes(salt + Zeros(2)) == FromBytes(salt) * 0x1_0000 by {
      Powers();
      FromBytesConcat(salt, Zeros(2));
      FromZeros(2);
    }
    assert FromBytes(a) == ssrc * 0x1_0000_0000_0000_0000 by {
      Powers();
      FromPadded(ssrc, 4, 4, 8);
    }
    assert FromBytes(b) == i * 0x1_0000 by {
      Powers();
      FromPadded(i, 8, 6, 2);
    }
    XorOfParts(salt + Zeros(2), a, b, CmPacked(ssrc, i));
  }

  lemma GcmIvBytes(salt: Salt12, ssrc: u32, i: Index48)
    ensures GcmIv(salt, ssrc, i) == XorBytes(salt, GcmPacked(ssrc, i))
  {
    var a := Zeros(2) + ToBytes(ssrc, 4) + Zeros(6);
    var b := Zeros(6) + ToBytes(i, 6) + Zeros(0);
    Powers();
    FromPadded(ssrc, 2, 4, 6);
    FromPadded(i, 6, 6, 0);
    XorOfParts(salt, a, b, GcmPacked(ssrc, i));
  }

  /** Under one session salt, different (SSRC, index) pairs never share a counter-mode IV. */
  lemma CmIvInjective(salt: Salt14, ssrc: u32, i: Index48, ssrc': u32, i': Index48)
    requires CmIv(salt, ssrc, i) == CmIv(salt, ssrc', i')
    ensures ssrc == ssrc' && i == i'
  {
    var k, p, q := salt + Zeros(2), CmPacked(ssrc, i), CmPacked(ssrc', i');
    CmIvBytes(salt, ssrc, i);
    CmIvBytes(salt, ssrc', i');
    XorBytesCommute(k, p);
    XorBytesCommute(k, q);
    XorBytesCancel(p, k);
    XorBytesCancel(q, k);
    assert p[4..8] == ToBytes(ssrc, 4) && q[4..8] == ToBytes(ssrc', 4);
    assert p[8..14] == ToBytes(i, 6) && q[8..14] == ToBytes(i', 6);
    Powers();
    ToBytesInjective(ssrc, ssrc', 4);
    ToBytesInjective(i, i', 6);
  }

  lemma GcmIvInjective(salt: Salt12, ssrc: u32, i: Index48, ssrc': u32, i': Index48)
    requires GcmIv(salt, ssrc, i) == GcmIv(salt, ssrc', i')
    ensures ssrc == ssrc' && i == i'
  {
    var p, q := GcmPacked(ssrc, i), GcmPacked(ssrc', i');
    GcmIvBytes(salt, ssrc, i);
    GcmIvBytes(salt, ssrc', i');
    XorBytesCommute(salt, p);
    XorBytesCommute(salt, q);
    XorBytesCancel(p, salt);
    XorBytesCancel(q, salt);
    assert p[2..6] == ToBytes(ssrc, 4) && q[2..6] == ToBytes(ssrc', 4);
    assert p[6..12] == ToBytes(i, 6) && q[6..12] == ToBytes(i', 6);
    Powers();
    ToBytesInjective(ssrc, ssrc', 4);
    ToBytesInjective(i, i', 6);
  }

  lemma CmIvTail(salt: Salt14, ssrc: u32, i: Index48)
    ensures CmIv(salt, ssrc, i)[14..] == Zeros(2)
  {
    CmIvBytes(salt, ssrc, i);
    XorZero(0);
  }

  lemma WholeWord(h: Bytes)
    requires |h| == 2
    ensures FromBytes(h + Zeros(2)) == FromBytes(h) * 0x1_0000 && FromBytes(h) < 0x1_0000
  {
    var s := h + Zeros(2);
    assert s[..3] == h + [0] && s[..3][..2] == h;
    assert FromBytes(s) == 0x100 * FromBytes(s[..3]);
    assert FromBytes(s[..3]) == 0x100 * FromBytes(h);
    assert FromBytes(h) == 0x100 * FromBytes(h[..1]) + h[1];
    assert h[..1][..0] == [];
  }

  lemma CountInWord(h: Bytes, j: u16)
    requires |h| == 2
    ensures ToBytes(FromBytes(h) * 0x1_0000 + j, 4) == h + ToBytes(j, 2)
  {
    ToFromBytes(h);
    ToBytesTail(FromBytes(h), j, 2);
  }

  /** Below 2^16 blocks, the block count stays in the two last bytes. */
  lemma CounterBlockBytes(iv: Bytes, j: u16)
    requires |iv| == 16 && iv[14..] == Zeros(2)
    ensures CounterBlock(iv, j) == iv[..14] + ToBytes(j, 2)
  {
    hide ToBytes, FromBytes;
    var head, h, low := iv[..12], iv[12..14], ToBytes(j, 2);
    assert iv[12..] == h + Zeros(2);
    WholeWord(h);
    CountInWord(h, j);
    assert (head + h) + low == head + (h + low);
    assert iv[..14] == head + h;
  }

  /** For such a vector the j-th block is the number j above it, as RFC 3711 has it in section 4.1.1. */
  lemma CounterIsSum(b: Bytes, iv: Bytes, j: u16)
    requires |iv| == 16 && iv[14..] == Zeros(2) && |b| == 16
    ensures IsCounter(b, iv, j) <==> FromBytes(b) == FromBytes(iv) + j
  {
    hide ToBytes, FromBytes, CounterBlock, IsCounter;
    CounterBlockIsCounter(b, iv, j);
    CounterBlockBytes(iv, j);
    Powers();
    assert iv == iv[..14] + Zeros(2);
    FromBytesConcat(iv[..14], Zeros(2));
    FromZeros(2);
    FromBytesConcat(iv[..14], ToBytes(j, 2));
    FromToBytes(j, 2);
    ToFromBytes(b);
    ToFromBytes(CounterBlock(iv, j));
  }

  /**
   Packets of at most 2^16 blocks never encrypt two blocks with the same counter block, unless
   they are the same block of a packet with the same SSRC and index.
   */
  lemma CounterBlocksDisjoint(salt: Salt14, ssrc: u32, i: Index48, j: u16, ssrc': u32, i': Index48, j': u16)
    requires CounterBlock(CmIv(salt, ssrc, i), j) == CounterBlock(CmIv(salt, ssrc', i'), j')
    ensures ssrc == ssrc' && i == i' && j == j'
  {
    var iv, iv' := CmIv(salt, ssrc, i), CmIv(salt, ssrc', i');
    CmIvTail(salt, ssrc, i);
    CmIvTail(salt, ssrc', i');
    CounterBlockBytes(iv, j);
    CounterBlockBytes(iv', j');
    var b, b' := CounterBlock(iv, j), CounterBlock(iv', j');
    assert b[..14] == iv[..14] && b'[..14] == iv'[..14];
    assert b[14..] == ToBytes(j, 2) && b'[14..] == ToBytes(j', 2);
    assert iv == iv[..14] + iv[14..] && iv' == iv'[..14] + iv'[14..];
    CmIvInjective(salt, ssrc, i, ssrc', i');
    Powers();
    ToBytesInjective(j, j', 2);
  }

  // ---- session keys, derived with the same counter mode ----

  lemma LabelWord(code: byte)
    ensures ToBytes(code, 4) == Zeros(3) + [code] && ToBytes(0, 6) == Zeros(6)
  {
    hide ToBytes;
    ToBytesStep(code, 3);
    ToBytesZero(3);
    ToBytesZero(6);
  }

  /**
   RFC 3711, section 4.3.1: the input of the key derivation is (master_salt XOR label * 2^48) * 2^16,
   that is, the IV of a packet whose SSRC is the label and whose index is 0.
   */
  lemma PrfInputIsRfc(lbl: KdfLabel, masterSalt: Bytes)
    requires |masterSalt| <= 14
    ensures PrfInput(lbl, masterSalt) == CmIv(masterSalt + Zeros(14 - |masterSalt|), lbl.Code(), 0)
  {
    hide CmIv, XorByte, ToBytes;
    var salt, code := masterSalt + Zeros(14 - |masterSalt|), lbl.Code();
    var packed := CmPacked(code, 0);
    CmIvBytes(salt, code, 0);
    LabelWord(code);
    assert packed == Zeros(7) + [code] + Zeros(8);
    XorWhereNonzero(salt + Zeros(2), packed, PrfInput(lbl, masterSalt));
  }

  /** So a session key is the keystream that counter mode under the master key yields from there. */
  lemma DerivedKeyIsRfc(cs: Suite, lbl: KdfLabel, masterKey: Bytes, masterSalt: Bytes)
    requires |masterSalt| <= 14 && |masterKey| in {16, 24, 32}
    ensures var iv := CmIv(masterSalt + Zeros(14 - |masterSalt|), lbl.Code(), 0);
            AesCmKdf(cs, lbl, masterKey, masterSalt)
            == Ok(Keystream(cs, masterKey, iv, lbl.OutputSize(|masterKey|)))
  {
    hide CmIv, PrfInput, Keystream;
    PrfInputIsRfc(lbl, masterSalt);
  }

  /** Byte by byte: byte k is that of the block encrypted for the counter k / 16 above that vector. */
  lemma DerivedKeyBytes(cs: Suite, lbl: KdfLabel, masterKey: Bytes, masterSalt: Bytes, k: nat, b: Bytes)
    requires |masterSalt| <= 14 && |masterKey| in {16, 24, 32} && k < lbl.OutputSize(|masterKey|) && |b| == 16
    requires FromBytes(b) == FromBytes(CmIv(masterSalt + Zeros(14 - |masterSalt|), lbl.Code(), 0)) + k / 16
    ensures AesCmKdf(cs, lbl, masterKey, masterSalt).Ok?
    ensures AesCmKdf(cs, lbl, masterKey, masterSalt).value[k] == cs.block(masterKey, b)[k % 16]
  {
    hide CmIv, PrfInput, Keystream, FromBytes, IsCounter;
    var salt := masterSalt + Zeros(14 - |masterSalt|);
    var iv := CmIv(salt, lbl.Code(), 0);
    PrfInputIsRfc(lbl, masterSalt);
    CmIvTail(salt, lbl.Code(), 0);
    CounterIsSum(b, iv, k / 16);
    KeystreamByte(cs, masterKey, iv, lbl.OutputSize(|masterKey|), k, b);
  }

  /** Session keys with different labels come from disjoint parts of the counter sequence. */
  lemma KdfBlocksDisjoint(lbl: KdfLabel, lbl': KdfLabel, masterSalt: Bytes, j: u16, j': u16)
    requires |masterSalt| <= 14 && lbl != lbl'
    ensures CounterBlock(PrfInput(lbl, masterSalt), j) != CounterBlock(PrfInput(lbl', masterSalt), j')
  {
    hide CmIv, CounterBlock, PrfInput;
    var salt := masterSalt + Zeros(14 - |masterSalt|);
    PrfInputIsRfc(lbl, masterSalt);
    PrfInputIsRfc(lbl', masterSalt);
    if CounterBlock(PrfInput(lbl, masterSalt), j) == CounterBlock(PrfInput(lbl', masterSalt), j') {
      CounterBlocksDisjoint(salt, lbl.Code(), 0, j, lbl'.Code(), 0, j');
      assert false;
    }
  }

  // ---- the loops ----

  lemma CmPackedAt(ssrc: u32, roc: u32, seqNum: u16)
    ensures var s := CmPacked(ssrc, roc * 0x1_0000 + seqNum);
            && (forall k | 0 <= k < 4 :: s[4 + k] == ToBytes(ssrc, 4)[k] && s[8 + k] == ToBytes(roc, 4)[k])
            && s[12] == ToBytes(seqNum, 2)[0] && s[13] == ToBytes(seqNum, 2)[1]
            && s[0] == s[1] == s[2] == s[3] == s[14] == s[15] == 0
  {
    ToBytesTail(roc, seqNum, 4);
    assert CmPacked(ssrc, roc * 0x1_0000 + seqNum)
        == Zeros(4) + ToBytes(ssrc, 4) + ToBytes(roc, 4) + ToBytes(seqNum, 2) + Zeros(2);
  }

  lemma GcmPackedAt(ssrc: u32, roc: u32, seqNum: u16)
    ensures var s := GcmPacked(ssrc, roc * 0x1_0000 + seqNum);
            && (forall k | 0 <= k < 4 :: s[2 + k] == ToBytes(ssrc, 4)[k] && s[6 + k] == ToBytes(roc, 4)[k])
            && s[10] == ToBytes(seqNum, 2)[0] && s[11] == ToBytes(seqNum, 2)[1]
            && s[0] == s[1] == 0
  {
    ToBytesTail(roc, seqNum, 4);
    assert GcmPacked(ssrc, roc * 0x1_0000 + seqNum)
        == Zeros(2) + ToBytes(ssrc, 4) + ToBytes(roc, 4) + ToBytes(seqNum, 2);
  }

  lemma CmPackedWord(ssrc: u32, index: u32)
    ensures CmPacked(ssrc, index) == Zeros(4) + ToBytes(ssrc, 4) + Zeros(2) + ToBytes(index, 4) + Zeros(2)
  {
    Powers();
    ToBytesPad(index, 4);
  }

  lemma GcmPackedWord(ssrc: u32, index: u32)
    ensures GcmPacked(ssrc, index) == Zeros(2) + ToBytes(ssrc, 4) + Zeros(2) + ToBytes(index, 4)
  {
    Powers();
    ToBytesPad(index, 4);
  }

  method CmRtpIv(salt: Salt14, ssrc: u32, roc: u32, seqNum: u16) returns (r: Bytes)
    ensures r == CmIv(salt, ssrc, roc * 0x1_0000 + seqNum)
  {
    hide CmIv, CmPacked, ToBytes, XorByte, XorBytes;
    var iv := new byte[16](_ => 0);
    forall k | 0 <= k < 14 { iv[k] := salt[k]; }
    var ssrcBytes, rocBytes, seqNumBytes := ToBytes(ssrc, 4), ToBytes(roc, 4), ToBytes(seqNum, 2);
    ghost var start, packed := salt + Zeros(2), CmPacked(ssrc, roc * 0x1_0000 + seqNum);
    CmPackedAt(ssrc, roc, seqNum);
    for i := 0 to 4
      invariant forall k | 0 <= k < 16 ::
        iv[k] == if 4 <= k < 4 + i || 8 <= k < 8 + i then XorByte(start[k], packed[k]) else start[k]
    {
      iv[4 + i] := XorByte(iv[4 + i], ssrcBytes[i]);
      iv[8 + i] := XorByte(iv[8 + i], rocBytes[i]);
    }
    iv[12] := XorByte(iv[12], seqNumBytes[0]);
    iv[13] := XorByte(iv[13], seqNumBytes[1]);
    r := iv[..];
    XorWhereNonzero(start, packed, r);
    CmIvBytes(salt, ssrc, roc * 0x1_0000 + seqNum);
  }

  method CmRtcpIv(salt: Salt14, ssrc: u32, index: u32) returns (r: Bytes)
    ensures r == CmIv(salt, ssrc, index)
  {
    hide CmIv, CmPacked, ToBytes, XorByte, XorBytes;
    var iv := new byte[16](_ => 0);
    forall k | 0 <= k < 14 { iv[k] := salt[k]; }
    var ssrcBytes, indexBytes := ToBytes(ssrc, 4), ToBytes(index, 4);
    ghost var start, packed := salt + Zeros(2), CmPacked(ssrc, index);
    assert packed == Zeros(4) + ssrcBytes + Zeros(2) + indexBytes + Zeros(2) by {
      CmPackedWord(ssrc, index);
    }
    for i := 0 to 4
      invariant forall k | 0 <= k < 16 ::
        iv[k] == if 4 <= k < 4 + i || 10 <= k < 10 + i then XorByte(start[k], packed[k]) else start[k]
    {
      iv[4 + i] := XorByte(iv[4 + i], ssrcBytes[i]);
      iv[10 + i] := XorByte(iv[10 + i], indexBytes[i]);
    }
    r := iv[..];
    XorWhereNonzero(start, packed, r);
    CmIvBytes(salt, ssrc, index);
  }

  method GcmRtpIv(salt: Salt12, ssrc: u32, roc: u32, seqNum: u16) returns (r: Bytes)
    ensures r == GcmIv(salt, ssrc, roc * 0x1_0000 + seqNum)
  {
    hide GcmIv, GcmPacked, ToBytes, XorByte, XorBytes;
    var iv := new byte[12](k requires 0 <= k < 12 => salt[k]);
    var ssrcBytes, rocBytes, seqNumBytes := ToBytes(ssrc, 4), ToBytes(roc, 4), ToBytes(seqNum, 2);
    ghost var packed := GcmPacked(ssrc, roc * 0x1_0000 + seqNum);
    GcmPackedAt(ssrc, roc, seqNum);
    for i := 0 to 4
      invariant forall k | 0 <= k < 12 ::
        iv[k] == if 2 <= k < 2 + i || 6 <= k < 6 + i then XorByte(salt[k], packed[k]) else salt[k]
    {
      iv[2 + i] := XorByte(iv[2 + i], ssrcBytes[i]);
      iv[6 + i] := XorByte(iv[6 + i], rocBytes[i]);
    }
    iv[10] := XorByte(iv[10], seqNumBytes[0]);
    iv[11] := XorByte(iv[11], seqNumBytes[1]);
    r := iv[..];
    XorWhereNonzero(salt, packed, r);
    GcmIvBytes(salt, ssrc, roc * 0x1_0000 + seqNum);
  }

  method GcmRtcpIv(salt: Salt12, ssrc: u32, index: u32) returns (r: Bytes)
    ensures r == GcmIv(salt, ssrc, index)
  {
    hide GcmIv, GcmPacked, ToBytes, XorByte, XorBytes;
    var iv := new byte[12](k requires 0 <= k < 12 => salt[k]);
    var ssrcBytes, indexBytes := ToBytes(ssrc, 4), ToBytes(index, 4);
    ghost var packed := GcmPacked(ssrc, index);
    assert packed == Zeros(2) + ssrcBytes + Zeros(2) + indexBytes by {
      GcmPackedWord(ssrc, index);
    }
    for i := 0 to 4
      invariant forall k | 0 <= k < 12 ::
        iv[k] == if 2 <= k < 2 + i || 8 <= k < 8 + i then XorByte(salt[k], packed[k]) else salt[k]
    {
      iv[2 + i] := XorByte(iv[2 + i], ssrcBytes[i]);
      iv[8 + i] := XorByte(iv[8 + i], indexBytes[i]);
    }
    r := iv[..];
    XorWhereNonzero(salt, packed, r);
    GcmIvBytes(salt, ssrc, index);
  }

  /** XOR with zero changes nothing, so the loops need only visit the other positions. */
  lemma XorWhereNonzero(start: Bytes, packed: Bytes, r: Bytes)
    requires |start| == |packed| == |r|
    requires forall k | 0 <= k < |r| ::
               r[k] == XorByte(start[k], packed[k]) || (packed[k] == 0 && r[k] == start[k])
    ensures r == XorBytes(start, packed)
  {
    forall k | 0 <= k < |r|
      ensures r[k] == XorBytes(start, packed)[k]
    {
      XorZero(start[k]);
    }
  }
}
