/** The cryptographic primitives, left abstract, and what is built from them by counting. */
module Crypto {
  import opened Types
  import opened Octets

  /**
   `block` encrypts one 16-byte block with AES under a key; `hmac` is HMAC-SHA1; `seal` and `open`
   are AES-GCM on (key, nonce, associated data, text), the tag being kept apart.
   */
  datatype Primitives = Primitives(
    block: (Bytes, Bytes) -> Bytes,
    hmac: (Bytes, Bytes) -> Bytes,
    seal: (Bytes, Bytes, Bytes, Bytes) -> Option<(Bytes, Bytes)>,
    open: (Bytes, Bytes, Bytes, Bytes, Bytes) -> Option<Bytes>)

  const GCM_TAG_LEN: nat := 16

  /** The lengths of the outputs, and that opening is exactly the inverse of sealing. */
  ghost predicate Sound(p: Primitives) {
    && (forall k, b :: |p.block(k, b)| == 16)
    && (forall k, m :: |p.hmac(k, m)| == 20)
    && (forall k, n, a, t, s | p.seal(k, n, a, t) == Some(s) :: |s.0| == |t| && |s.1| == GCM_TAG_LEN)
    && (forall k, n, a, c, g, t :: p.open(k, n, a, c, g) == Some(t) <==> p.seal(k, n, a, t) == Some((c, g)))
  }

  ghost function Identity(): Primitives {
    Primitives((k, b) => Zeros(16), (k, m) => Zeros(20),
               (k, n, a, t) => Some((t, Zeros(GCM_TAG_LEN))),
               (k, n, a, c, g) => if g == Zeros(GCM_TAG_LEN) then Some(c) else None)
  }

  type Suite = p: Primitives | Sound(p) ghost witness Identity()

  /** Counter block j of a keystream: the low 32 bits of the initial block count modulo 2^32. */
  function CounterBlock(iv: Bytes, j: nat): (b: Bytes)
    requires |iv| == 16
    ensures |b| == 16
  {
    iv[..12] + ToBytes((FromBytes(iv[12..]) + j) % 0x1_0000_0000, 4)
  }

  function Keystream(cs: Suite, key: Bytes, iv: Bytes, n: nat): (s: Bytes)
    requires |iv| == 16
    ensures |s| == n
  {
    seq(n, k requires 0 <= k < n => cs.block(key, CounterBlock(iv, k / 16))[k % 16])
  }

  /**
   The block that the j-th block of a counter-mode stream encrypts: the vector, whose last four
   bytes count up, modulo 2^32.
   */
  predicate IsCounter(b: Bytes, iv: Bytes, j: nat)
    requires |iv| == 16
  {
    |b| == 16 && b[..12] == iv[..12] && FromBytes(b[12..]) == (FromBytes(iv[12..]) + j) % 0x1_0000_0000
  }

  /** Counter mode, byte by byte: each byte is XORed with that of the encrypted counter block. */
  ghost predicate CtrEncrypted(cs: Suite, key: Bytes, iv: Bytes, plain: Bytes, cipher: Bytes)
    requires |iv| == 16
  {
    && |cipher| == |plain|
    && (forall k, b | 0 <= k < |plain| && IsCounter(b, iv, k / 16) ::
          cipher[k] == XorByte(plain[k], cs.block(key, b)[k % 16]))
  }

  lemma CounterBlockIsCounter(b: Bytes, iv: Bytes, j: nat)
    requires |iv| == 16
    ensures IsCounter(b, iv, j) <==> b == CounterBlock(iv, j)
  {
    hide ToBytes, FromBytes;
    var low := (FromBytes(iv[12..]) + j) % 0x1_0000_0000;
    FourBytes(low);
    assert CounterBlock(iv, j)[12..] == ToBytes(low, 4);
    if |b| == 16 {
      ToFromBytes(b[12..]);
      assert b == b[..12] + b[12..];
    }
  }

  lemma FourBytes(x: nat)
    requires x < 0x1_0000_0000
    ensures FromBytes(ToBytes(x, 4)) == x
  {
    assert Pow256(4) == 0x100 * Pow256(3) == 0x1_0000 * Pow256(2);
    assert Pow256(2) == 0x100 * Pow256(1);
    FromToBytes(x, 4);
  }

  lemma KeystreamByte(cs: Suite, key: Bytes, iv: Bytes, n: nat, k: nat, b: Bytes)
    requires |iv| == 16 && k < n && IsCounter(b, iv, k / 16)
    ensures Keystream(cs, key, iv, n)[k] == cs.block(key, b)[k % 16]
  {
    hide IsCounter, CounterBlock;
    CounterBlockIsCounter(b, iv, k / 16);
  }

  /** XOR with the keystream is counter mode. */
  lemma KeystreamEncrypts(cs: Suite, key: Bytes, iv: Bytes, plain: Bytes)
    requires |iv| == 16
    ensures CtrEncrypted(cs, key, iv, plain, XorBytes(plain, Keystream(cs, key, iv, |plain|)))
  {
    hide IsCounter, XorByte, Keystream;
    forall k, b | 0 <= k < |plain| && IsCounter(b, iv, k / 16)
      ensures Keystream(cs, key, iv, |plain|)[k] == cs.block(key, b)[k % 16]
    {
      KeystreamByte(cs, key, iv, |plain|, k, b);
    }
  }

  datatype KdfLabel = RtpEncrypt | RtpAuthTag | RtpSalt | RtcpEncrypt | RtcpAuthTag | RtcpSalt {
    function Code(): byte {
      match this
      case RtpEncrypt => 0
      case RtpAuthTag => 1
      case RtpSalt => 2
      case RtcpEncrypt => 3
      case RtcpAuthTag => 4
      case RtcpSalt => 5
    }

    function OutputSize(keySize: nat): nat {
      match this
      case RtpEncrypt | RtcpEncrypt => keySize
      case RtpSalt | RtcpSalt => 14
      case RtpAuthTag | RtcpAuthTag => 20
    }
  }

  /** The labels and sizes of RFC 3711, sections 4.3.1 and 4.3.2 and table 8.2. */
  lemma LabelTable(keySize: nat)
    ensures RtpEncrypt.Code() == 0x00 && RtpAuthTag.Code() == 0x01 && RtpSalt.Code() == 0x02
    ensures RtcpEncrypt.Code() == 0x03 && RtcpAuthTag.Code() == 0x04 && RtcpSalt.Code() == 0x05
    ensures RtpEncrypt.OutputSize(keySize) == RtcpEncrypt.OutputSize(keySize) == keySize
    ensures RtpSalt.OutputSize(keySize) == RtcpSalt.OutputSize(keySize) == 14
    ensures RtpAuthTag.OutputSize(keySize) == RtcpAuthTag.OutputSize(keySize) == 20
  {
  }

  /** The master salt, padded to a block, with the label XORed into byte 7. */
  function PrfInput(lbl: KdfLabel, masterSalt: Bytes): (iv: Bytes)
    requires |masterSalt| <= 16
    ensures |iv| == 16
  {
    var padded := masterSalt + Zeros(16 - |masterSalt|);
    padded[7 := XorByte(padded[7], lbl.Code())]
  }

  /** Session key derivation, RFC 3711 section 4.3, with a key derivation rate of zero. */
  function AesCmKdf(cs: Suite, lbl: KdfLabel, masterKey: Bytes, masterSalt: Bytes): (r: Result<Bytes>)
    requires |masterSalt| <= 16
    ensures r.Ok? <==> |masterKey| in {16, 24, 32}
    ensures r.Ok? ==> |r.value| == lbl.OutputSize(|masterKey|)
    ensures r.Err? ==> r.error == InvalidKeySize
  {
    if |masterKey| in {16, 24, 32} then
      Ok(Keystream(cs, masterKey, PrfInput(lbl, masterSalt), lbl.OutputSize(|masterKey|)))
    else Err(InvalidKeySize)
  }
}
