/** Master keys, key lives, stream configurations and the transforms built from them. */
module StreamConfig {
  import opened Types
  import opened Crypto
  import opened Profile
  import opened AesCmSha1
  import opened AesGcm
  import opened Transform

  const MAX_RTP_SESSION_KEY_LIVES: nat := 0x1_0000_0000_0000
  const MAX_RTCP_SESSION_KEY_LIVES: nat := 0x8000_0000

  datatype Lives = Lives(rtp: nat, rtpLimit: nat, rtcp: nat, rtcpLimit: nat) {
    function Left(isRtp: bool): nat {
      if isRtp then rtp else rtcp
    }

    /** One use less; a key that dies for one kind of packet dies for both (RFC 3711, section 9.2). */
    function Decrease(isRtp: bool): KeysLifetime
      requires Left(isRtp) > 0
      requires Bounded(this)
    {
      if isRtp then this.(rtp := rtp - 1, rtcp := if rtp == 1 then 0 else rtcp)
      else this.(rtcp := rtcp - 1, rtp := if rtcp == 1 then 0 else rtp)
    }

    function Killed(): Lives {
      this.(rtp := 0, rtcp := 0)
    }
  }

  predicate Bounded(l: Lives) {
    l.rtp <= MAX_RTP_SESSION_KEY_LIVES && l.rtcp <= MAX_RTCP_SESSION_KEY_LIVES
  }

  type KeysLifetime = l: Lives | Bounded(l) witness Lives(0, 0, 0, 0)

  datatype MasterKey = MasterKey(key: Bytes, salt: Bytes, mki: Mki, lifetime: KeysLifetime) {
    /** The limits may be equal to the lives, although the documentation asks for less. */
    function SetKeysLifetime(l: Lives): (r: Result<MasterKey>)
      ensures r.Ok? <==> Bounded(l) && l.rtpLimit <= l.rtp && l.rtcpLimit <= l.rtcp
      ensures r.Ok? ==> r.value.lifetime == l && (r.value.key, r.value.salt, r.value.mki) == (key, salt, mki)
      ensures r.Err? ==> r.error == InvalidProfile
    {
      if l.rtp > MAX_RTP_SESSION_KEY_LIVES || l.rtcp > MAX_RTCP_SESSION_KEY_LIVES then Err(InvalidProfile)
      else if l.rtp < l.rtpLimit || l.rtcp < l.rtcpLimit then Err(InvalidProfile)
      else Ok(this.(lifetime := l))
    }
  }

  datatype StreamConfig = StreamConfig(
    keys: seq<MasterKey>, rtpProfile: ProtectionProfile, rtcpProfile: ProtectionProfile,
    replayWindowSize: u16, allowSendRepeat: bool)
  {
    /** With several keys: all have an MKI, no two the same, and only the first may be of length zero. */
    predicate MkisConsistent() {
      && (forall k | 0 <= k < |keys| :: keys[k].mki.Some?)
      && (forall j, k | 0 <= j < k < |keys| :: keys[j].mki != keys[k].mki)
      && (forall k | 0 < k < |keys| ::
            |keys[0].mki.value| in {0, |keys[k].mki.value|} && |keys[k].mki.value| == |keys[|keys| - 1].mki.value|)
    }

    predicate SizesConsistent()
      requires keys != []
    {
      forall k | 0 <= k < |keys| :: |keys[k].key| == |keys[0].key| && |keys[k].salt| == |keys[0].salt|
    }

    predicate ProfilesFit(keySize: nat, saltSize: nat) {
      && rtpProfile.TakesKey(keySize) && rtcpProfile.TakesKey(keySize)
      && (rtpProfile.KeyLen() == rtcpProfile.KeyLen() == 0 ==> keySize in {16, 24, 32})
      && saltSize in {0, rtpProfile.SaltLen()} && saltSize in {0, rtcpProfile.SaltLen()}
    }

    /** What `Validate` is for. */
    predicate Valid() {
      && (rtcpProfile.TagLen() >= 10 || rtcpProfile.IsGcm())
      && keys != []
      && (|keys| > 1 ==> MkisConsistent() && SizesConsistent())
      && ProfilesFit(|keys[0].key|, |keys[0].salt|)
    }

    function MkiLen(): nat
      requires keys != []
    {
      if keys[0].mki.None? then 0 else |keys[0].mki.value|
    }
  }

  /** The keys with the lives of the first one filed under this MKI set anew. */
  function WithLives(keys: seq<MasterKey>, mki: Mki, l: KeysLifetime): (r: seq<MasterKey>)
    ensures |r| == |keys|
    ensures forall k | 0 <= k < |keys| :: r[k] == keys[k].(lifetime := r[k].lifetime)
  {
    if keys == [] then []
    else if keys[0].mki == mki then [keys[0].(lifetime := l)] + keys[1..]
    else [keys[0]] + WithLives(keys[1..], mki, l)
  }

  const NO_LIVES: KeysLifetime := Lives(0, 0, 0, 0)

  /** What is left of a configuration when the key under this MKI has died. */
  function KillKey(c: StreamConfig, mki: Mki): StreamConfig {
    c.(keys := WithLives(c.keys, mki, NO_LIVES))
  }

  method SetKeysLifetimeMki(c: StreamConfig, l: Lives, mki: Mki) returns (c': StreamConfig, r: Result<Unit>)
    ensures r.Ok? <==> (exists k :: k in c.keys && k.mki == mki)
                       && Bounded(l) && l.rtpLimit <= l.rtp && l.rtcpLimit <= l.rtcp
    ensures r.Ok? ==> c' == c.(keys := WithLives(c.keys, mki, l))
    ensures r.Err? ==> c' == c
  {
    hide WithLives, StreamConfig.Valid;
    c' := c;
    for i := 0 to |c.keys|
      invariant forall j | 0 <= j < i :: c.keys[j].mki != mki
      invariant c' == c
    {
      if c.keys[i].mki == mki {
        var key := c.keys[i].SetKeysLifetime(l);
        if key.Err? {
          return c, Err(key.error);
        }
        FirstHit(c.keys, mki, l, i);
        return c.(keys := c.keys[i := key.value]), Ok(());
      }
    }
    r := Err(InvalidMki);
  }

  lemma {:induction false} NoHit(keys: seq<MasterKey>, mki: Mki, l: KeysLifetime)
    requires forall k | k in keys :: k.mki != mki
    ensures WithLives(keys, mki, l) == keys
  {
    if keys != [] {
      assert keys[0] in keys;
      NoHit(keys[1..], mki, l);
      assert keys == [keys[0]] + keys[1..];
    }
  }

  lemma {:induction false} FirstHit(keys: seq<MasterKey>, mki: Mki, l: KeysLifetime, k: nat)
    requires k < |keys| && keys[k].mki == mki && forall j | 0 <= j < k :: keys[j].mki != mki
    ensures WithLives(keys, mki, l) == keys[k := keys[k].(lifetime := l)]
  {
    if k > 0 {
      FirstHit(keys[1..], mki, l, k - 1);
    } else {
      assert keys == [keys[0]] + keys[1..];
    }
  }

  lemma {:induction false} WithLivesHits(keys: seq<MasterKey>, mki: Mki, l: KeysLifetime, k: nat)
    requires k < |keys|
    requires forall j | 0 <= j < |keys| && j != k :: keys[j].mki != keys[k].mki
    ensures WithLives(keys, mki, l)[k] == if keys[k].mki == mki then keys[k].(lifetime := l) else keys[k]
  {
    if keys[0].mki != mki && k > 0 {
      WithLivesHits(keys[1..], mki, l, k - 1);
    }
  }

  /** Killing a key of a valid configuration leaves it valid, that key without lives, and the rest alone. */
  lemma KillKeyKills(c: StreamConfig, mki: Mki)
    requires c.Valid()
    ensures KillKey(c, mki).Valid() && |KillKey(c, mki).keys| == |c.keys|
    ensures forall k | 0 <= k < |c.keys| ::
              KillKey(c, mki).keys[k] == if c.keys[k].mki == mki then c.keys[k].(lifetime := NO_LIVES) else c.keys[k]
  {
    forall k | 0 <= k < |c.keys|
      ensures KillKey(c, mki).keys[k] == if c.keys[k].mki == mki then c.keys[k].(lifetime := NO_LIVES) else c.keys[k]
    {
      WithLivesHits(c.keys, mki, NO_LIVES, k);
    }
  }

  /** The checks on several keys: same sizes, and MKIs that can be told apart. */
  method ValidateKeys(c: StreamConfig) returns (ok: bool)
    requires |c.keys| > 1
    ensures ok <==> c.MkisConsistent() && c.SizesConsistent()
  {
    var mkiSize := 0;
    var mkiSeen := {};
    for i := 0 to |c.keys|
      invariant forall k | 0 <= k < i :: c.keys[k].mki.Some?
      invariant mkiSeen == set k | 0 <= k < i && c.keys[k].mki.Some? :: c.keys[k].mki.value
      invariant forall j, k | 0 <= j < k < i :: c.keys[j].mki != c.keys[k].mki
      invariant i == 0 ==> mkiSize == 0
      invariant i > 0 ==> mkiSize == |c.keys[i - 1].mki.value| && |c.keys[0].mki.value| in {0, mkiSize}
      invariant forall k | 0 < k < i :: |c.keys[k].mki.value| == mkiSize
      invariant i > 1 ==> mkiSize > 0
      invariant forall k | 0 <= k < i :: |c.keys[k].key| == |c.keys[0].key| && |c.keys[k].salt| == |c.keys[0].salt|
    {
      var key := c.keys[i];
      if key.mki.None? {
        return false;
      }
      var mki := key.mki.value;
      if mkiSize == 0 {
        mkiSize := |mki|;
      } else if mkiSize != |mki| {
        assert i > 0;
        assert |c.keys[0].mki.value| !in {0, |mki|} || (i > 1 && |c.keys[1].mki.value| != |mki|);
        return false;
      }
      if mki in mkiSeen {
        return false;
      }
      mkiSeen := mkiSeen + {mki};
      if |key.key| != |c.keys[0].key| || |key.salt| != |c.keys[0].salt| {
        return false;
      }
    }
    ok := true;
  }

  method Validate(c: StreamConfig) returns (r: Result<Unit>)
    ensures r == if c.Valid() then Ok(()) else Err(InvalidProfile)
  {
    hide ProtectionProfile.KeyLen, ProtectionProfile.TagLen;
    if c.rtcpProfile.TagLen() < 10 && c.rtcpProfile != AeadAes128Gcm && c.rtcpProfile != AeadAes256Gcm {
      return Err(InvalidProfile);
    }
    if |c.keys| == 0 {
      return Err(InvalidProfile);
    }
    var keySize, saltSize := |c.keys[0].key|, |c.keys[0].salt|;
    if |c.keys| > 1 {
      var ok := ValidateKeys(c);
      if !ok {
        return Err(InvalidProfile);
      }
    }
    if c.rtpProfile.KeyLen() > 0 && c.rtpProfile.KeyLen() != keySize {
      return Err(InvalidProfile);
    }
    if c.rtcpProfile.KeyLen() > 0 && c.rtcpProfile.KeyLen() != keySize {
      return Err(InvalidProfile);
    }
    if c.rtpProfile.KeyLen() == 0 && c.rtcpProfile.KeyLen() == 0
       && keySize != 16 && keySize != 24 && keySize != 32 {
      return Err(InvalidProfile);
    }
    if saltSize != 0 {
      if c.rtpProfile.SaltLen() > 0 && c.rtpProfile.SaltLen() != saltSize {
        return Err(InvalidProfile);
      }
      if c.rtcpProfile.SaltLen() > 0 && c.rtcpProfile.SaltLen() != saltSize {
        return Err(InvalidProfile);
      }
    }
    r := Ok(());
  }

  // ---- which configurations are accepted, spelled out ----

  /** The key sizes of AES-128, AES-192 and AES-256; without a cipher any of them will do. */
  predicate KeyOfProfile(p: ProtectionProfile, size: nat) {
    && size in {16, 24, 32}
    && (p in {Aes128CmHmacSha180, Aes128CmHmacSha132, Aes128CmNullAuth, AeadAes128Gcm} ==> size == 16)
    && (p in {Aes192CmHmacSha180, Aes192CmHmacSha132, Aes192CmNullAuth} ==> size == 24)
    && (p in {Aes256CmHmacSha180, Aes256CmHmacSha132, Aes256CmNullAuth, AeadAes256Gcm} ==> size == 32)
  }

  /** RFC 3711, section 3.4 and 5.2: SRTCP is authenticated, with 80 bits; or it is GCM. */
  lemma OneKeyValidIff(c: StreamConfig)
    requires |c.keys| == 1
    ensures var (key, salt) := (|c.keys[0].key|, |c.keys[0].salt|);
            var gcm := {AeadAes128Gcm, AeadAes256Gcm};
            c.Valid() <==>
              && c.rtcpProfile in {NullCipherHmacSha180, Aes128CmHmacSha180, Aes192CmHmacSha180, Aes256CmHmacSha180,
                                   AeadAes128Gcm, AeadAes256Gcm}
              && KeyOfProfile(c.rtpProfile, key) && KeyOfProfile(c.rtcpProfile, key)
              && (|| salt == 0
                  || (salt == 12 && c.rtpProfile in gcm && c.rtcpProfile in gcm)
                  || (salt == 14 && c.rtpProfile !in gcm && c.rtcpProfile !in gcm))
  {
    ProfileSizes(c.rtpProfile);
    ProfileSizes(c.rtcpProfile);
  }

  /** Several keys: each could stand alone, sizes agree, and MKIs tell the keys apart. */
  lemma ManyKeysValidIff(c: StreamConfig)
    requires |c.keys| != 1
    ensures c.Valid() <==>
              && |c.keys| > 1
              && (forall k | 0 <= k < |c.keys| :: c.(keys := [c.keys[k]]).Valid() && c.keys[k].mki.Some?)
              && (forall k | 0 <= k < |c.keys| ::
                    |c.keys[k].key| == |c.keys[0].key| && |c.keys[k].salt| == |c.keys[0].salt|)
              && (forall j, k | 0 <= j < k < |c.keys| :: c.keys[j].mki != c.keys[k].mki)
              && (forall k | 1 <= k < |c.keys| :: |c.keys[k].mki.value| == |c.keys[1].mki.value|)
              && |c.keys[0].mki.value| in {0, |c.keys[1].mki.value|}
  {
    hide ProtectionProfile.KeyLen, ProtectionProfile.TagLen, ProtectionProfile.SaltLen;
    forall k | 0 <= k < |c.keys|
      ensures c.(keys := [c.keys[k]]).keys[0] == c.keys[k]
    {
    }
  }

  // ---- transforms, indexed by MKI ----

  datatype KeyEntry = KeyEntry(transform: Transform, lives: KeysLifetime)
  type KeyMap = map<Mki, KeyEntry>

  function NewTransform(cs: Suite, c: StreamConfig, key: MasterKey): (r: Result<Transform>)
    requires |key.salt| <= 16
  {
    if c.rtpProfile.IsGcm() then
      var g :- NewGcm(cs, key.key, key.salt, key.mki, c.rtpProfile, c.rtcpProfile);
      Ok(Gcm(g))
    else
      var t :- NewCm(cs, key.key, key.salt, key.mki, c.rtpProfile, c.rtcpProfile);
      Ok(Cm(t))
  }

  predicate SaltsFit(c: StreamConfig) {
    forall k | k in c.keys :: |k.salt| <= 16
  }

  /** The map filled from the first n keys of a configuration. */
  function TransformsUpTo(cs: Suite, c: StreamConfig, n: nat): Result<KeyMap>
    requires SaltsFit(c) && n <= |c.keys|
  {
    if n == 0 then Ok(map[])
    else
      var m :- TransformsUpTo(cs, c, n - 1);
      var t :- NewTransform(cs, c, c.keys[n - 1]);
      Ok(m[c.keys[n - 1].mki := KeyEntry(t, c.keys[n - 1].lifetime)])
  }

  function Transforms(cs: Suite, c: StreamConfig): Result<KeyMap>
    requires SaltsFit(c)
  {
    TransformsUpTo(cs, c, |c.keys|)
  }

  method GetTransforms(cs: Suite, c: StreamConfig) returns (r: Result<KeyMap>)
    requires SaltsFit(c)
    ensures r == Transforms(cs, c)
  {
    hide NewTransform;
    var transforms: KeyMap := map[];
    for i := 0 to |c.keys|
      invariant TransformsUpTo(cs, c, i) == Ok(transforms)
    {
      var key := c.keys[i];
      var t := NewTransform(cs, c, key);
      if t.Err? {
        FailureSticks(cs, c, i + 1, |c.keys|);
        return Err(t.error);
      }
      transforms := transforms[key.mki := KeyEntry(t.value, key.lifetime)];
    }
    r := Ok(transforms);
  }

  lemma {:induction false} FailureSticks(cs: Suite, c: StreamConfig, i: nat, n: nat)
    requires SaltsFit(c) && i <= n <= |c.keys|
    requires TransformsUpTo(cs, c, i).Err?
    ensures TransformsUpTo(cs, c, n) == TransformsUpTo(cs, c, i)
  {
    hide NewTransform;
    if i < n {
      FailureSticks(cs, c, i, n - 1);
    }
  }

  lemma ValidSaltsFit(c: StreamConfig)
    requires c.Valid()
    ensures SaltsFit(c)
  {
    if |c.keys| > 1 {
      forall k | k in c.keys
        ensures |k.salt| <= 16
      {
        var j :| 0 <= j < |c.keys| && c.keys[j] == k;
      }
    }
  }

  /** What a validated configuration guarantees about its keys. */
  lemma ValidKeys(c: StreamConfig, j: nat)
    requires c.Valid() && j < |c.keys|
    ensures |c.keys[j].key| in {16, 24, 32}
    ensures |c.keys[j].key| == |c.keys[0].key| && |c.keys[j].salt| == |c.keys[0].salt|
    ensures forall k | 0 <= k < |c.keys| && k != j :: c.keys[k].mki != c.keys[j].mki
    ensures c.MkiLen() > 0 ==> c.keys[j].mki.Some? && |c.keys[j].mki.value| == c.MkiLen()
  {
  }

  /** The transform of one key works, is filed under its MKI, and has the tag sizes of the profiles. */
  predicate GoodEntry(c: StreamConfig, mki: Mki, t: Transform) {
    && t.Valid() && t.Mki() == mki
    && t.RtpTagLen() == c.rtpProfile.TagLen()
    && t.RtcpTagLen() == c.rtcpProfile.TagLen()
  }

  /** The transform is the one of this master key: its session keys and MKI, with the configured profiles. */
  predicate BuiltFrom(cs: Suite, c: StreamConfig, key: MasterKey, t: Transform)
    requires |key.salt| <= 16
  {
    && t.Valid() && t.Mki() == key.mki
    && t.HasProfiles(c.rtpProfile, c.rtcpProfile) && t.DerivedFrom(cs, key.key, key.salt)
  }

  lemma NewTransformWorks(cs: Suite, c: StreamConfig, j: nat)
    requires c.Valid() && SaltsFit(c) && j < |c.keys| && |c.keys[j].salt| <= 16
    ensures var t := NewTransform(cs, c, c.keys[j]);
            if c.rtpProfile.IsGcm() == c.rtcpProfile.IsGcm() then
              t.Ok? && GoodEntry(c, c.keys[j].mki, t.value) && BuiltFrom(cs, c, c.keys[j], t.value)
            else t == Err(TransformDispatch)
  {
    ValidKeys(c, j);
  }

  /** The n-th entry of the map, for a configuration whose profiles agree. */
  lemma OneMore(cs: Suite, c: StreamConfig, n: nat)
    requires c.Valid() && SaltsFit(c) && n < |c.keys| && TransformsUpTo(cs, c, n).Ok?
    requires c.rtpProfile.IsGcm() == c.rtcpProfile.IsGcm()
    ensures var m, key := TransformsUpTo(cs, c, n).value, c.keys[n];
            |key.salt| <= 16
            && exists t :: GoodEntry(c, key.mki, t) && BuiltFrom(cs, c, key, t)
                        && TransformsUpTo(cs, c, n + 1) == Ok(m[key.mki := KeyEntry(t, key.lifetime)])
  {
    hide StreamConfig.Valid, GoodEntry, BuiltFrom, NewTransform;
    assert c.keys[n] in c.keys;
    NewTransformWorks(cs, c, n);
    assert GoodEntry(c, c.keys[n].mki, NewTransform(cs, c, c.keys[n]).value);
  }

  function MkisUpTo(c: StreamConfig, n: nat): set<Mki>
    requires n <= |c.keys|
  {
    if n == 0 then {} else MkisUpTo(c, n - 1) + {c.keys[n - 1].mki}
  }

  lemma {:induction false} InMkisUpTo(c: StreamConfig, n: nat, i: Mki)
    requires n <= |c.keys|
    ensures i in MkisUpTo(c, n) <==> exists k :: 0 <= k < n && c.keys[k].mki == i
  {
    if n > 0 {
      InMkisUpTo(c, n - 1, i);
    }
  }

  /** m holds one working entry for each of the first n keys, made from it, with the lives configured for it. */
  ghost predicate Built(cs: Suite, c: StreamConfig, n: nat, m: KeyMap)
    requires n <= |c.keys| && SaltsFit(c)
  {
    && |m.Keys| == n
    && m.Keys == MkisUpTo(c, n)
    && (forall i | i in m :: GoodEntry(c, i, m[i].transform))
    && (forall k | 0 <= k < n :: Filed(cs, c, k, m))
  }

  /** The entry of the k-th key of a configuration. */
  predicate Filed(cs: Suite, c: StreamConfig, k: nat, m: KeyMap)
    requires k < |c.keys| && SaltsFit(c)
  {
    var key := c.keys[k];
    assert key in c.keys;
    key.mki in m && m[key.mki].lives == key.lifetime && BuiltFrom(cs, c, key, m[key.mki].transform)
  }

  lemma BuiltStep(cs: Suite, c: StreamConfig, n: nat, m: KeyMap, t: Transform)
    requires c.Valid() && SaltsFit(c) && n < |c.keys| && Built(cs, c, n, m) && GoodEntry(c, c.keys[n].mki, t)
    requires |c.keys[n].salt| <= 16 && BuiltFrom(cs, c, c.keys[n], t)
    ensures Built(cs, c, n + 1, m[c.keys[n].mki := KeyEntry(t, c.keys[n].lifetime)])
  {
    hide GoodEntry, BuiltFrom, StreamConfig.Valid;
    var key := c.keys[n];
    assert key.mki !in m by {
      ValidKeys(c, n);
      InMkisUpTo(c, n, key.mki);
    }
    var m' := m[key.mki := KeyEntry(t, key.lifetime)];
    assert m'.Keys == m.Keys + {key.mki};
    assert forall k | 0 <= k < n :: Filed(cs, c, k, m) ==> Filed(cs, c, k, m');
  }

  lemma {:induction false} TransformsBuilt(cs: Suite, c: StreamConfig, n: nat)
    requires c.Valid() && SaltsFit(c) && n <= |c.keys|
    requires c.rtpProfile.IsGcm() == c.rtcpProfile.IsGcm()
    ensures TransformsUpTo(cs, c, n).Ok? && Built(cs, c, n, TransformsUpTo(cs, c, n).value)
  {
    hide StreamConfig.Valid, SaltsFit, GoodEntry, BuiltFrom, NewTransform;
    if n > 0 {
      TransformsBuilt(cs, c, n - 1);
      OneMore(cs, c, n - 1);
      var m, key := TransformsUpTo(cs, c, n - 1).value, c.keys[n - 1];
      var t :| GoodEntry(c, key.mki, t) && BuiltFrom(cs, c, key, t)
               && TransformsUpTo(cs, c, n) == Ok(m[key.mki := KeyEntry(t, key.lifetime)]);
      hide TransformsUpTo, Built;
      BuiltStep(cs, c, n - 1, m, t);
    }
  }

  /**
   A configuration that `Validate` accepts yields one working transform for each of its keys if
   and only if its two profiles are both GCM or both not; otherwise no transform can be built.
   */
  lemma ValidationSound(cs: Suite, c: StreamConfig)
    requires c.Valid()
    ensures SaltsFit(c)
    ensures Transforms(cs, c).Ok? <==> c.rtpProfile.IsGcm() == c.rtcpProfile.IsGcm()
    ensures Transforms(cs, c).Err? ==> Transforms(cs, c) == Err(TransformDispatch)
    ensures Transforms(cs, c).Ok? ==>
              var m := Transforms(cs, c).value;
              && |m.Keys| == |c.keys|
              && (forall k | 0 <= k < |c.keys| :: Filed(cs, c, k, m))
              && (forall i | i in m :: GoodEntry(c, i, m[i].transform))
              && (forall i | i in m && c.MkiLen() > 0 :: i.Some? && |i.value| == c.MkiLen())
  {
    hide StreamConfig.Valid, NewTransform, GoodEntry, BuiltFrom;
    ValidSaltsFit(c);
    assert c.keys != [] by {
      hide *;
      ValidNonEmpty(c);
    }
    if c.rtpProfile.IsGcm() == c.rtcpProfile.IsGcm() {
      TransformsBuilt(cs, c, |c.keys|);
      var m := Transforms(cs, c).value;
      forall i | i in m && c.MkiLen() > 0
        ensures i.Some? && |i.value| == c.MkiLen()
      {
        InMkisUpTo(c, |c.keys|, i);
        var k :| 0 <= k < |c.keys| && c.keys[k].mki == i;
        ValidKeys(c, k);
      }
    } else {
      assert c.keys[0] in c.keys;
      NewTransformWorks(cs, c, 0);
      assert TransformsUpTo(cs, c, 1) == Err(TransformDispatch);
      FailureSticks(cs, c, 1, |c.keys|);
    }
  }

  lemma ValidNonEmpty(c: StreamConfig)
    requires c.Valid()
    ensures c.keys != []
  {
  }

  const MIXED_PROFILES := StreamConfig(
    [MasterKey(seq(16, _ => 0), [], None, NO_LIVES)], Aes128CmHmacSha180, AeadAes128Gcm, 128, false)

  /** There is a configuration that passes validation and cannot be built: it mixes GCM with counter mode. */
  lemma MixedProfilesCannotBuild(cs: Suite)
    ensures MIXED_PROFILES.Valid() && SaltsFit(MIXED_PROFILES) && Transforms(cs, MIXED_PROFILES).Err?
  {
    assert MIXED_PROFILES.Valid();
    ValidationSound(cs, MIXED_PROFILES);
  }
}
