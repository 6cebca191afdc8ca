/** Protection profiles and the sizes they prescribe. */
module Profile {
  datatype ProtectionProfile =
    | NullCipherHmacSha180
    | Aes128CmHmacSha180
    | Aes128CmHmacSha132
    | Aes128CmNullAuth
    | Aes192CmHmacSha180
    | Aes192CmHmacSha132
    | Aes192CmNullAuth
    | Aes256CmHmacSha180
    | Aes256CmHmacSha132
    | Aes256CmNullAuth
    | AeadAes128Gcm
    | AeadAes256Gcm
  {
    predicate IsGcm() {
      AeadAes128Gcm? || AeadAes256Gcm?
    }

    function TagLen(): nat {
      match this
      case NullCipherHmacSha180 | Aes128CmHmacSha180 | Aes192CmHmacSha180 | Aes256CmHmacSha180 => 10
      case Aes128CmHmacSha132 | Aes192CmHmacSha132 | Aes256CmHmacSha132 => 4
      case Aes128CmNullAuth | Aes192CmNullAuth | Aes256CmNullAuth => 0
      case AeadAes128Gcm | AeadAes256Gcm => 0
    }

    function KeyLen(): nat {
      match this
      case NullCipherHmacSha180 => 0
      case Aes128CmNullAuth | Aes128CmHmacSha132 | Aes128CmHmacSha180 | AeadAes128Gcm => 16
      case Aes192CmNullAuth | Aes192CmHmacSha132 | Aes192CmHmacSha180 => 24
      case Aes256CmNullAuth | Aes256CmHmacSha132 | Aes256CmHmacSha180 | AeadAes256Gcm => 32
    }

    /** A profile without encryption takes a master key of any size. */
    predicate TakesKey(size: nat) {
      KeyLen() == 0 || KeyLen() == size
    }

    function SaltLen(): nat {
      if IsGcm() then 12 else 14
    }
  }

  /** Key, tag and salt lengths of RFC 3711 (section 8.2), RFC 6188 and RFC 7714, profile by profile. */
  lemma ProfileSizes(p: ProtectionProfile)
    ensures p.KeyLen()
         == if p in {Aes128CmHmacSha180, Aes128CmHmacSha132, Aes128CmNullAuth, AeadAes128Gcm} then 16
            else if p in {Aes192CmHmacSha180, Aes192CmHmacSha132, Aes192CmNullAuth} then 24
            else if p in {Aes256CmHmacSha180, Aes256CmHmacSha132, Aes256CmNullAuth, AeadAes256Gcm} then 32
            else 0
    ensures p.TagLen()
         == if p in {NullCipherHmacSha180, Aes128CmHmacSha180, Aes192CmHmacSha180, Aes256CmHmacSha180} then 10
            else if p in {Aes128CmHmacSha132, Aes192CmHmacSha132, Aes256CmHmacSha132} then 4
            else 0
    ensures p.SaltLen() == if p in {AeadAes128Gcm, AeadAes256Gcm} then 12 else 14
    ensures p.IsGcm() <==> p in {AeadAes128Gcm, AeadAes256Gcm}
  {
  }
}
